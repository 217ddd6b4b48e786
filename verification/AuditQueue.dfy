/** The audit log as a queue of entries: what adding, deleting and retrieving mean, and what holds over
    every run of operations. */
module AuditQueue {
  import opened Words
  import opened AuditRing

  /** The stored entries, the size the log believes it stores, and every line accepted so far. */
  datatype Log = Log(entries: seq<Entry>, stored: nat, history: seq<Line>)

  function EntryOf(history: seq<Line>, i: nat): Entry
    requires i < |history|
  {
    Format(i % TWO64, history[i])
  }

  /** Entries are dropped from the old end until `need` bytes are free; if even the empty log seems to be
      too full, its bookkeeping starts over. */
  function Evicted(q: seq<Entry>, stored: nat, need: nat): (seq<Entry>, nat)
    requires Total(q) <= stored
  {
    if need + stored <= LOG_SIZE then (q, stored)
    else if q == [] then ([], 0)
    else Evicted(q[1..], stored - |q[0]|, need)
  }

  function AddLine(l: Log, line: Line): Log
    requires Total(l.entries) <= l.stored
  {
    var e := Format(|l.history| % TWO64, line);
    var room := Evicted(l.entries, l.stored, |e|);
    Log(room.0 + [e], room.1 + |e|, l.history + [line])
  }

  function DeleteItems(l: Log, n: nat): Log {
    if n >= |l.entries| then Log([], 0, l.history) else l.(entries := l.entries[n..])
  }

  datatype Op = Init | Add(line: Line, secureCaller: bool) | Delete(n: nat)

  function Apply(l: Log, op: Op): (l': Log)
    requires Accounted(l)
    ensures Accounted(l')
  {
    match op
    case Init => Log([], 0, l.history)
    case Add(line, secureCaller) =>
      if secureCaller && LineFits(line) then AddKeepsAccount(l, line); AddLine(l, line) else l
    case Delete(n) => DeleteKeepsAccount(l, n); DeleteItems(l, n)
  }

  function Run(l: Log, ops: seq<Op>): (l': Log)
    requires Accounted(l)
    ensures Accounted(l')
    decreases |ops|
  {
    if ops == [] then l else Run(Apply(l, ops[0]), ops[1..])
  }

  // ---- What every run keeps

  /** The recorded size covers the entries and stays inside the buffer. */
  predicate Accounted(l: Log) {
    && Total(l.entries) <= l.stored <= LOG_SIZE
    && (l.entries == [] ==> l.stored == 0)
    && forall k :: 0 <= k < |l.entries| ==> WellFormed(l.entries[k])
  }

  lemma {:induction false} EvictedSuffix(q: seq<Entry>, stored: nat, need: nat)
    requires Total(q) <= stored <= LOG_SIZE && need <= LOG_SIZE
    ensures var r := Evicted(q, stored, need);
            && |r.0| <= |q| && r.0 == q[|q| - |r.0|..]
            && Total(r.0) <= r.1 && r.1 + need <= LOG_SIZE
    decreases |q|
  {
    if need + stored <= LOG_SIZE || q == [] {
    } else {
      EvictedSuffix(q[1..], stored - |q[0]|, need);
    }
  }

  lemma AddKeepsAccount(l: Log, line: Line)
    requires Accounted(l) && LineFits(line)
    ensures Accounted(AddLine(l, line))
  {
    var e := Format(|l.history| % TWO64, line);
    FormatWellFormed(|l.history| % TWO64, line);
    EvictedSuffix(l.entries, l.stored, |e|);
    FlatLast(Evicted(l.entries, l.stored, |e|).0, e);
  }

  lemma DeleteKeepsAccount(l: Log, n: nat)
    requires Accounted(l)
    ensures Accounted(DeleteItems(l, n))
  {
    if n < |l.entries| {
      FlatSplit(l.entries, n);
    }
  }

  /** Entry `i` is an accepted line stamped with its place in the order of acceptance. */
  ghost predicate Stamped(l: Log, i: nat) {
    && i < |l.entries| <= |l.history|
    && l.entries[i] == EntryOf(l.history, |l.history| - |l.entries| + i)
  }

  /** The entries are the newest accepted lines, in the order of acceptance. */
  ghost predicate IsWindow(l: Log) {
    && |l.entries| <= |l.history|
    && forall i: nat {:trigger Stamped(l, i)} :: i < |l.entries| ==> Stamped(l, i)
  }

  /** Dropping old entries and adding the next line shifts the window. */
  lemma ShiftWindow(l: Log, kept: seq<Entry>, line: Line, stored: nat, e: Entry)
    requires IsWindow(l) && |kept| <= |l.entries| && kept == l.entries[|l.entries| - |kept|..]
    requires e == EntryOf(l.history + [line], |l.history|)
    ensures IsWindow(Log(kept + [e], stored, l.history + [line]))
  {
    var l' := Log(kept + [e], stored, l.history + [line]);
    forall i: nat | i < |l'.entries|
      ensures Stamped(l', i)
    {
      if i < |kept| {
        var j := |l.entries| - |kept| + i;
        assert Stamped(l, j);
        assert EntryOf(l'.history, |l.history| - |kept| + i) == EntryOf(l.history, |l.history| - |kept| + i);
      }
    }
  }

  lemma DropKeepsWindow(l: Log, n: nat, stored: nat)
    requires IsWindow(l) && n <= |l.entries|
    ensures IsWindow(Log(l.entries[n..], stored, l.history))
  {
    var l' := Log(l.entries[n..], stored, l.history);
    forall i: nat | i < |l'.entries|
      ensures Stamped(l', i)
    {
      assert Stamped(l, n + i);
    }
  }

  lemma AddKeepsWindow(l: Log, line: Line)
    requires Accounted(l) && IsWindow(l) && LineFits(line)
    ensures IsWindow(AddLine(l, line))
  {
    var e := Format(|l.history| % TWO64, line);
    FormatWellFormed(|l.history| % TWO64, line);
    EvictedSuffix(l.entries, l.stored, |e|);
    var room := Evicted(l.entries, l.stored, |e|);
    ShiftWindow(l, room.0, line, room.1 + |e|, e);
  }

  lemma ApplyKeepsWindow(l: Log, op: Op)
    requires Accounted(l) && IsWindow(l)
    ensures IsWindow(Apply(l, op))
  {
    match op
    case Init =>
      DropKeepsWindow(l, |l.entries|, 0);
    case Add(line, secureCaller) =>
      if secureCaller && LineFits(line) {
        AddKeepsWindow(l, line);
      }
    case Delete(n) =>
      if n >= |l.entries| {
        DropKeepsWindow(l, |l.entries|, 0);
      } else {
        DropKeepsWindow(l, n, l.stored);
      }
  }

  lemma ApplyKeepsHistory(l: Log, op: Op)
    requires Accounted(l)
    ensures l.history <= Apply(l, op).history
  {
  }

  /** Whatever is initialised, added and deleted, the stored entries are a contiguous window of the accepted
      lines that ends with the newest one; lines only ever leave at the old end. */
  lemma {:induction false} WindowInEveryRun(l: Log, ops: seq<Op>)
    requires Accounted(l) && IsWindow(l)
    ensures IsWindow(Run(l, ops)) && l.history <= Run(l, ops).history
    decreases |ops|
  {
    if ops == [] {
    } else {
      ApplyKeepsWindow(l, ops[0]);
      ApplyKeepsHistory(l, ops[0]);
      WindowInEveryRun(Apply(l, ops[0]), ops[1..]);
    }
  }

  function Timestamp(e: Entry): nat
    requires |e| >= 8
  {
    ReadLe32(e, 0) + 0x1_0000_0000 * ReadLe32(e, 4)
  }

  lemma Le32At(s: seq<byte>, p: nat, x: u32)
    requires p + 4 <= |s| && s[p..p + 4] == Le32(x)
    ensures ReadLe32(s, p) == x
  {
    Le32RoundTrip(x);
    assert s[p] == s[p..p + 4][0] && s[p + 1] == s[p..p + 4][1] && s[p + 2] == s[p..p + 4][2] && s[p + 3] == s[p..p + 4][3];
  }

  lemma FormatTimestamp(t: nat, line: Line)
    requires t < TWO64
    ensures |Format(t, line)| >= 8 && Timestamp(Format(t, line)) == t
  {
    var e := Format(t, line);
    assert e[0..4] == Le32(t % 0x1_0000_0000) && e[4..8] == Le32(t / 0x1_0000_0000);
    Le32At(e, 0, t % 0x1_0000_0000);
    Le32At(e, 4, t / 0x1_0000_0000);
  }

  /** While the 64-bit counter has not wrapped, neighbouring entries carry consecutive timestamps. */
  lemma TimestampsConsecutive(l: Log, i: nat)
    requires Accounted(l) && IsWindow(l) && i + 1 < |l.entries| && |l.history| <= TWO64
    ensures Timestamp(l.entries[i + 1]) == Timestamp(l.entries[i]) + 1
  {
    assert Stamped(l, i) && Stamped(l, i + 1);
    StampedTimestamp(l, i);
    StampedTimestamp(l, i + 1);
  }

  lemma StampedTimestamp(l: Log, i: nat)
    requires Stamped(l, i) && |l.history| <= TWO64
    ensures |l.entries[i]| >= 8 && Timestamp(l.entries[i]) == |l.history| - |l.entries| + i
  {
    EntryTimestamp(l.history, |l.history| - |l.entries| + i);
  }

  lemma EntryTimestamp(history: seq<Line>, i: nat)
    requires i < |history| <= TWO64
    ensures |EntryOf(history, i)| >= 8 && Timestamp(EntryOf(history, i)) == i
  {
    UnwrappedCounter(i);
    assert EntryOf(history, i) == Format(i, history[i]);
    FormatTimestamp(i, history[i]);
  }

  lemma UnwrappedCounter(i: nat)
    requires i < TWO64
    ensures i % TWO64 == i
  {
  }

  // ---- What the entries say

  /** The entry carries the stamp, no counter, the dummy partition, the line with its size, and the dummy MAC. */
  ghost predicate Shows(e: Entry, stamp: nat, line: Line) {
    && |e| == line.size + 24
    && Timestamp(e) == stamp && ReadLe32(e, 8) == 0 && ReadLe32(e, 12) == 1234 && ReadLe32(e, 16) == line.size
    && e[20..20 + line.size] == line.data && e[20 + line.size..] == [0, 1, 2, 3]
  }

  lemma FieldsOf(stamp: seq<byte>, iv: seq<byte>, id: seq<byte>, size: seq<byte>, data: seq<byte>, mac: seq<byte>,
                 e: Entry)
    requires |stamp| == 8 && |iv| == |id| == |size| == 4 && e == stamp + iv + id + (size + data) + mac
    ensures |e| == 20 + |data| + |mac|
    ensures e[8..12] == iv && e[12..16] == id && e[16..20] == size
    ensures e[20..20 + |data|] == data && e[20 + |data|..] == mac
  {
  }

  lemma FormatShows(t: nat, line: Line)
    requires t < TWO64
    ensures Shows(Format(t, line), t, line)
  {
    var e := Format(t, line);
    FormatTimestamp(t, line);
    FieldsOf(Le64(t), Le32(0), Le32(DUMMY_PARTITION_ID), Le32(line.size), line.data, MAC, e);
    Le32At(e, 8, 0);
    Le32At(e, 12, DUMMY_PARTITION_ID);
    Le32At(e, 16, line.size);
  }

  /** The lines of a run that come from a secure caller, with a size that is a multiple of 4 and at most 1000. */
  function AcceptedLines(ops: seq<Op>): seq<Line> {
    if ops == [] then []
    else
      var before, op := AcceptedLines(ops[..|ops| - 1]), ops[|ops| - 1];
      if op.Add? && op.secureCaller && op.line.size % 4 == 0 && op.line.size <= 1000 then before + [op.line] else before
  }

  lemma {:induction false} HistoryIsAccepted(l: Log, ops: seq<Op>)
    requires Accounted(l)
    ensures Run(l, ops).history == l.history + AcceptedLines(ops)
    decreases |ops|
  {
    if ops == [] {
    } else {
      var most, op := ops[..|ops| - 1], ops[|ops| - 1];
      HistoryIsAccepted(l, most);
      RunLast(l, most, op);
      assert most + [op] == ops;
      HistoryGrows(Run(l, most), op);
    }
  }

  lemma HistoryGrows(l: Log, op: Op)
    requires Accounted(l)
    ensures Apply(l, op).history ==
            if op.Add? && op.secureCaller && op.line.size % 4 == 0 && op.line.size <= 1000 then l.history + [op.line]
            else l.history
  {
  }

  /** The entry shows line number `j`, stamped with the number of lines accepted before it. */
  ghost predicate ShowsLine(e: Entry, lines: seq<Line>, j: nat) {
    j < |lines| && Shows(e, j % TWO64, lines[j])
  }

  lemma ShowsOf(history: seq<Line>, j: nat, e: Entry)
    requires j < |history| && e == EntryOf(history, j)
    ensures ShowsLine(e, history, j)
  {
    FormatShows(j % TWO64, history[j]);
  }

  lemma StampedShows(l: Log, lines: seq<Line>, i: nat, j: nat)
    requires IsWindow(l) && l.history == lines && i < |l.entries| && j == |lines| - |l.entries| + i
    ensures ShowsLine(l.entries[i], lines, j)
  {
    assert Stamped(l, i);
    ShowsOf(lines, j, l.entries[i]);
  }

  /** In every run from an empty log, the entries show the newest accepted lines in order. */
  lemma EntriesShowLines(ops: seq<Op>, i: nat)
    requires i < |Run(EMPTY_LOG, ops).entries|
    ensures |Run(EMPTY_LOG, ops).entries| <= |AcceptedLines(ops)|
    ensures ShowsLine(Run(EMPTY_LOG, ops).entries[i], AcceptedLines(ops),
                      |AcceptedLines(ops)| - |Run(EMPTY_LOG, ops).entries| + i)
  {
    RunShape(ops);
    var lines, l := AcceptedLines(ops), Run(EMPTY_LOG, ops);
    StampedShows(l, lines, i, |lines| - |l.entries| + i);
  }

  lemma RunShape(ops: seq<Op>)
    ensures IsWindow(Run(EMPTY_LOG, ops)) && Run(EMPTY_LOG, ops).history == AcceptedLines(ops)
  {
    WindowInEveryRun(EMPTY_LOG, ops);
    HistoryIsAccepted(EMPTY_LOG, ops);
    assert [] + AcceptedLines(ops) == AcceptedLines(ops);
  }

  // ---- Exact accounting

  predicate Exact(l: Log) { l.stored == Total(l.entries) }

  predicate IsPartialDelete(l: Log, op: Op) {
    op.Delete? && 0 < op.n < |l.entries|
  }

  /** With exact accounting, eviction drops the fewest oldest entries that make room. */
  lemma {:induction false} EvictedFewest(q: seq<Entry>, need: nat)
    requires Total(q) <= LOG_SIZE && need <= LOG_SIZE
    ensures var r := Evicted(q, Total(q), need);
            var k := |q| - |r.0|;
            && 0 <= k && r.0 == q[k..] && r.1 == Total(q[k..])
            && Total(q[k..]) + need <= LOG_SIZE
            && (forall j :: 0 <= j < k ==> Total(q[j..]) + need > LOG_SIZE)
    decreases |q|
  {
    assert q[0..] == q;
    if need + Total(q) <= LOG_SIZE {
    } else {
      EvictedFewest(q[1..], need);
      var r := Evicted(q[1..], Total(q[1..]), need);
      assert forall j :: 1 <= j <= |q| ==> q[j..] == q[1..][j - 1..];
    }
  }

  /** How much larger the recorded size is than the true one. */
  function Slack(l: Log): nat
    requires Accounted(l)
  {
    l.stored - Total(l.entries)
  }

  predicate IsAccepted(op: Op) {
    op.Add? && op.secureCaller && LineFits(op.line)
  }

  /** The operation makes the recorded size true again, whatever it was: it empties the log, or it adds a line
      for which there is no room even after every entry is dropped. */
  predicate Resets(l: Log, op: Op)
    requires Accounted(l)
  {
    || op.Init?
    || (op.Delete? && op.n >= |l.entries|)
    || (IsAccepted(op) && op.line.size + LOG_OVERHEAD + Slack(l) > LOG_SIZE)
  }

  lemma {:induction false} EvictedSlack(q: seq<Entry>, stored: nat, need: nat)
    requires Total(q) <= stored <= LOG_SIZE && need <= LOG_SIZE
    ensures var r := Evicted(q, stored, need);
            r.1 == Total(r.0) + if need + (stored - Total(q)) > LOG_SIZE then 0 else stored - Total(q)
    decreases |q|
  {
    if need + stored <= LOG_SIZE {
    } else if q == [] {
    } else {
      EvictedSlack(q[1..], stored - |q[0]|, need);
    }
  }

  lemma AddSlack(l: Log, line: Line)
    requires Accounted(l) && LineFits(line)
    ensures Accounted(AddLine(l, line))
    ensures Slack(AddLine(l, line)) == if line.size + LOG_OVERHEAD + Slack(l) > LOG_SIZE then 0 else Slack(l)
  {
    var e := Format(|l.history| % TWO64, line);
    AddKeepsAccount(l, line);
    FormatWellFormed(|l.history| % TWO64, line);
    EvictedSlack(l.entries, l.stored, |e|);
    FlatLast(Evicted(l.entries, l.stored, |e|).0, e);
  }

  /** What one operation does to the excess: a reset clears it, a partial delete adds what it removed, and
      nothing else changes it. */
  lemma ApplySlack(l: Log, op: Op)
    requires Accounted(l)
    ensures Slack(Apply(l, op)) ==
            if Resets(l, op) then 0
            else if IsPartialDelete(l, op) then Slack(l) + Total(l.entries[..op.n])
            else Slack(l)
  {
    if IsAccepted(op) {
      AddSlack(l, op.line);
    } else if op.Delete? && op.n < |l.entries| {
      FlatSplit(l.entries, op.n);
      if op.n == 0 {
        assert l.entries[..0] == [];
      }
    }
  }

  /** The excess as the operations add it up. */
  function Excess(l: Log, ops: seq<Op>): nat
    requires Accounted(l)
    decreases |ops|
  {
    if ops == [] then 0
    else
      var most, op := ops[..|ops| - 1], ops[|ops| - 1];
      var before := Run(l, most);
      if Resets(before, op) then 0
      else if IsPartialDelete(before, op) then Excess(l, most) + Total(before.entries[..op.n])
      else Excess(l, most)
  }

  lemma {:induction false} RunLast(l: Log, ops: seq<Op>, op: Op)
    requires Accounted(l)
    ensures Run(l, ops + [op]) == Apply(Run(l, ops), op)
    decreases |ops|
  {
    if ops == [] {
      assert [op][1..] == [];
    } else {
      RunLast(Apply(l, ops[0]), ops[1..], op);
      assert (ops + [op])[1..] == ops[1..] + [op];
    }
  }

  /** In every run the recorded size is the true one plus what partial deletes removed since the last reset. */
  lemma {:induction false} SlackIsExcess(l: Log, ops: seq<Op>)
    requires Accounted(l) && Exact(l)
    ensures Slack(Run(l, ops)) == Excess(l, ops)
    decreases |ops|
  {
    if ops == [] {
    } else {
      var most, op := ops[..|ops| - 1], ops[|ops| - 1];
      SlackIsExcess(l, most);
      assert ops == most + [op];
      RunLast(l, most, op);
      ApplySlack(Run(l, most), op);
    }
  }

  /** Operation `k` of the run is a partial delete. */
  predicate PartialDeleteAt(l: Log, ops: seq<Op>, k: nat)
    requires Accounted(l)
  {
    k < |ops| && IsPartialDelete(Run(l, ops[..k]), ops[k])
  }

  predicate ResetAt(l: Log, ops: seq<Op>, k: nat)
    requires Accounted(l)
  {
    k < |ops| && Resets(Run(l, ops[..k]), ops[k])
  }

  /** A reset comes after operation `k`. */
  ghost predicate ResetAfter(l: Log, ops: seq<Op>, k: nat)
    requires Accounted(l)
  {
    exists j: nat :: j > k && ResetAt(l, ops, j)
  }

  /** Every partial delete of the run is followed by a reset. */
  ghost predicate PartialDeletesSettled(l: Log, ops: seq<Op>)
    requires Accounted(l)
  {
    forall k: nat :: PartialDeleteAt(l, ops, k) ==> ResetAfter(l, ops, k)
  }

  lemma PrefixEvents(l: Log, ops: seq<Op>, op: Op, k: nat)
    requires Accounted(l) && k < |ops|
    ensures PartialDeleteAt(l, ops + [op], k) == PartialDeleteAt(l, ops, k)
    ensures ResetAt(l, ops + [op], k) == ResetAt(l, ops, k)
  {
    assert (ops + [op])[..k] == ops[..k];
  }

  lemma LastEvent(l: Log, ops: seq<Op>, op: Op)
    requires Accounted(l)
    ensures PartialDeleteAt(l, ops + [op], |ops|) == IsPartialDelete(Run(l, ops), op)
    ensures ResetAt(l, ops + [op], |ops|) == Resets(Run(l, ops), op)
  {
    assert (ops + [op])[..|ops|] == ops;
  }

  /** How one more operation bears on the condition. */
  lemma SettledNext(l: Log, ops: seq<Op>, op: Op)
    requires Accounted(l)
    ensures PartialDeletesSettled(l, ops + [op]) <==>
              Resets(Run(l, ops), op) || (PartialDeletesSettled(l, ops) && !IsPartialDelete(Run(l, ops), op))
  {
    var longer, n := ops + [op], |ops|;
    LastEvent(l, ops, op);
    forall k: nat | k < n
      ensures PartialDeleteAt(l, longer, k) == PartialDeleteAt(l, ops, k)
      ensures ResetAt(l, longer, k) == ResetAt(l, ops, k)
    {
      PrefixEvents(l, ops, op, k);
    }
    if Resets(Run(l, ops), op) {
      ResetSettles(l, longer, n);
    } else {
      SettledWithoutReset(l, ops, longer);
    }
  }

  lemma ResetSettles(l: Log, ops: seq<Op>, n: nat)
    requires Accounted(l) && |ops| == n + 1 && ResetAt(l, ops, n) && !PartialDeleteAt(l, ops, n)
    ensures PartialDeletesSettled(l, ops)
  {
    forall k: nat | PartialDeleteAt(l, ops, k)
      ensures ResetAfter(l, ops, k)
    {
      assert n > k && ResetAt(l, ops, n);
    }
  }

  lemma SettledWithoutReset(l: Log, ops: seq<Op>, longer: seq<Op>)
    requires Accounted(l) && |longer| == |ops| + 1 && !ResetAt(l, longer, |ops|)
    requires forall k: nat :: k < |ops| ==> PartialDeleteAt(l, longer, k) == PartialDeleteAt(l, ops, k)
    requires forall k: nat :: k < |ops| ==> ResetAt(l, longer, k) == ResetAt(l, ops, k)
    ensures PartialDeletesSettled(l, longer) <==>
              PartialDeletesSettled(l, ops) && !PartialDeleteAt(l, longer, |ops|)
  {
    assert forall k: nat :: ResetAt(l, longer, k) == ResetAt(l, ops, k);
    assert forall k: nat :: ResetAfter(l, longer, k) == ResetAfter(l, ops, k);
    assert !ResetAfter(l, longer, |ops|);
  }

  /** The reported size is the true one if and only if every partial delete of the run was followed by a reset:
      an init, a delete of everything, or a line that fits only after the bookkeeping starts over. */
  lemma {:induction false} ExactIffSettled(l: Log, ops: seq<Op>)
    requires Accounted(l) && Exact(l)
    ensures Exact(Run(l, ops)) <==> PartialDeletesSettled(l, ops)
    decreases |ops|
  {
    if ops == [] {
      assert forall k: nat :: !PartialDeleteAt(l, ops, k);
    } else {
      var most, op := ops[..|ops| - 1], ops[|ops| - 1];
      var before := Run(l, most);
      assert ops == most + [op];
      ExactIffSettled(l, most);
      SettledNext(l, most, op);
      RunLast(l, most, op);
      ApplySlack(before, op);
      if IsPartialDelete(before, op) {
        PartialDeleteOverstates(before, op);
      }
    }
  }

  /** In particular, without any partial delete the reported size is the true one. */
  lemma ExactWithoutPartialDelete(l: Log, ops: seq<Op>)
    requires Accounted(l) && Exact(l) && forall k: nat :: !PartialDeleteAt(l, ops, k)
    ensures Exact(Run(l, ops))
  {
    ExactIffSettled(l, ops);
  }

  lemma PartialDeleteOverstates(l: Log, op: Op)
    requires Accounted(l) && IsPartialDelete(l, op)
    ensures !Exact(Apply(l, op)) && Apply(l, op).stored > Total(Apply(l, op).entries)
  {
    FlatSplit(l.entries, op.n);
    assert l.entries[..op.n][0] == l.entries[0] && WellFormed(l.entries[0]);
  }

  // ---- Retrieving the most recent entries

  /** The fewest oldest entries to leave out so that the others fit `size`. */
  function LongestSuffix(q: seq<Entry>, size: nat): nat {
    if Total(q) <= size then 0 else 1 + LongestSuffix(q[1..], size)
  }

  lemma {:induction false} LongestSuffixIsLongest(q: seq<Entry>, size: nat)
    ensures var k := LongestSuffix(q, size);
            k <= |q| && Total(q[k..]) <= size && forall j :: 0 <= j < k ==> Total(q[j..]) > size
    decreases |q|
  {
    assert q[0..] == q;
    if Total(q) <= size {
    } else {
      LongestSuffixIsLongest(q[1..], size);
      assert forall j :: 1 <= j <= |q| ==> q[j..] == q[1..][j - 1..];
    }
  }

  /** How many entries `READ_RECENT` leaves out: none if the request covers the recorded size, otherwise at
      least one. */
  function RecentSkip(l: Log, size: nat): nat
    requires l.entries != []
  {
    if size >= l.stored then 0 else 1 + LongestSuffix(l.entries[1..], size)
  }

  function RecentSize(l: Log, size: nat): nat
    requires l.entries != []
  {
    if size >= l.stored then l.stored
    else if RecentSkip(l, size) <= |l.entries| then Total(l.entries[RecentSkip(l, size)..])
    else 0
  }

  /** `READ_RECENT` returns the longest run of newest entries that fits exactly when the accounting is exact
      or the request is smaller than what is really stored. */
  lemma RecentCorrectExactly(l: Log, size: nat)
    requires Accounted(l) && l.entries != []
    ensures
      (RecentSkip(l, size) == LongestSuffix(l.entries, size) &&
       LongestSuffix(l.entries, size) <= |l.entries| &&
       RecentSize(l, size) == Total(l.entries[LongestSuffix(l.entries, size)..]))
      <==> (l.stored == Total(l.entries) || size < Total(l.entries))
  {
    LongestSuffixIsLongest(l.entries, size);
    LongestSuffixIsLongest(l.entries[1..], size);
    assert l.entries[0..] == l.entries;
  }

  /** The same in terms of the operations: in every run, `READ_RECENT` is right exactly when every partial
      delete was followed by a reset or the request is smaller than what is really stored. */
  lemma RecentCorrectInEveryRun(l: Log, ops: seq<Op>, size: nat)
    requires Accounted(l) && Exact(l) && Run(l, ops).entries != []
    ensures
      var r := Run(l, ops);
      (RecentSkip(r, size) == LongestSuffix(r.entries, size) &&
       LongestSuffix(r.entries, size) <= |r.entries| &&
       RecentSize(r, size) == Total(r.entries[LongestSuffix(r.entries, size)..]))
      <==> (PartialDeletesSettled(l, ops) || size < Total(r.entries))
  {
    ExactIffSettled(l, ops);
    RecentCorrectExactly(Run(l, ops), size);
  }

  /** After a partial delete, a request with room for all that is left, but not for what was deleted too,
      loses at least the oldest entry left. */
  lemma RecentMissesAfterPartialDelete(l: Log, n: nat, size: nat)
    requires Accounted(l) && Exact(l) && 0 < n < |l.entries|
    requires Total(l.entries[n..]) <= size < Total(l.entries)
    ensures var l' := Apply(l, Delete(n));
            l'.entries == l.entries[n..] && LongestSuffix(l'.entries, size) == 0 && RecentSkip(l', size) >= 1
  {
    assert Apply(l, Delete(n)).stored == l.stored;
  }

  const EMPTY_LOG: Log := Log([], 0, [])

  /** A line for which there is room evicts nothing. */
  lemma AddWithRoom(l: Log, line: Line, t: nat, e: Entry)
    requires Accounted(l) && LineFits(line) && t == |l.history| < TWO64 && e == Format(t, line)
    requires l.stored + line.size + LOG_OVERHEAD <= LOG_SIZE
    ensures |e| == line.size + LOG_OVERHEAD && WellFormed(e)
    ensures Apply(l, Add(line, true)) == Log(l.entries + [e], l.stored + |e|, l.history + [line])
  {
    FormatWellFormed(t, line);
    UnwrappedCounter(t);
    assert Evicted(l.entries, l.stored, |e|) == (l.entries, l.stored);
  }

  lemma RunTwo(l: Log, a: Op, b: Op)
    requires Accounted(l)
    ensures Run(l, [a, b]) == Apply(Apply(l, a), b)
  {
    assert [a, b] == [a] + [b] && [a] == [] + [a];
    RunLast(l, [a], b);
    RunLast(l, [], a);
  }

  /** The first line of an empty log. */
  lemma FirstAdd(l: Log, line: Line, t: nat, e: Entry)
    requires Accounted(l) && l.entries == [] && LineFits(line) && t == |l.history| < TWO64 && e == Format(t, line)
    ensures |e| == line.size + LOG_OVERHEAD && WellFormed(e)
    ensures Follows(l, Apply(l, Add(line, true)), line, [e])
  {
    AddWithRoom(l, line, t, e);
    assert l.entries + [e] == [e];
  }

  lemma SecondAdd(l: Log, line: Line, t: nat, e0: Entry, e1: Entry)
    requires Accounted(l) && l.entries == [e0] && LineFits(line) && t == |l.history| < TWO64 && e1 == Format(t, line)
    requires l.stored + line.size + LOG_OVERHEAD <= LOG_SIZE
    ensures |e1| == line.size + LOG_OVERHEAD && WellFormed(e1)
    ensures Follows(l, Apply(l, Add(line, true)), line, [e0, e1])
  {
    AddWithRoom(l, line, t, e1);
    Pair(l.entries, e0, e1);
  }

  lemma Pair(q: seq<Entry>, e0: Entry, e1: Entry)
    requires q == [e0]
    ensures q + [e1] == [e0, e1]
  {
  }

  /** `l'` is `l` with one line more and the entries `q`. */
  predicate Follows(l: Log, l': Log, line: Line, q: seq<Entry>) {
    l'.entries == q && l'.stored == l.stored + line.size + LOG_OVERHEAD && l'.history == l.history + [line]
  }

  /** Two lines of no content on an empty log. */
  lemma TwoAdds(l: Log, line: Line, t: nat, u: nat, e0: Entry, e1: Entry)
    requires Accounted(l) && l.entries == [] && |l.history| == t && u == t + 1 < TWO64
    requires line.size == 0 && e0 == Format(t, line) && e1 == Format(u, line)
    ensures |e0| == LOG_OVERHEAD && WellFormed(e0) && |e1| == LOG_OVERHEAD && WellFormed(e1)
    ensures var l' := Run(l, [Add(line, true), Add(line, true)]);
            l'.entries == [e0, e1] && l'.stored == 48
  {
    var l1 := Apply(l, Add(line, true));
    FirstAdd(l, line, t, e0);
    SecondAdd(l1, line, u, e0, e1);
    RunTwo(l, Add(line, true), Add(line, true));
  }

  lemma SingleTotal(e: Entry)
    ensures Total([e]) == |e|
  {
    FlatLast([], e);
    assert [] + [e] == [e];
  }

  /** Two lines of no content are added to a fresh log and the older entry is deleted; a request for 30 bytes
      then returns nothing, although the 24-byte entry that is left fits. */
  lemma RecentMissesExample(line: Line)
    requires line.size == 0
    ensures var l := Run(EMPTY_LOG, [Add(line, true), Add(line, true)] + [Delete(1)]);
            && |l.entries| == 1 && Total(l.entries) == LOG_OVERHEAD
            && LongestSuffix(l.entries, 30) == 0 && RecentSkip(l, 30) == 1 && RecentSize(l, 30) == 0
  {
    var adds := [Add(line, true), Add(line, true)];
    var e0, e1 := Format(0, line), Format(1, line);
    TwoAdds(EMPTY_LOG, line, 0, 1, e0, e1);
    RunLast(EMPTY_LOG, adds, Delete(1));
    DeleteOlder(Run(EMPTY_LOG, adds), e0, e1);
  }

  lemma DeleteOlder(l: Log, e0: Entry, e1: Entry)
    requires Accounted(l) && l.entries == [e0, e1] && |e1| == LOG_OVERHEAD && l.stored == 48
    ensures var l' := Apply(l, Delete(1));
            && l'.entries == [e1] && Total(l'.entries) == LOG_OVERHEAD
            && LongestSuffix(l'.entries, 30) == 0 && RecentSkip(l', 30) == 1 && RecentSize(l', 30) == 0
  {
    assert l.entries[1..] == [e1];
    RecentOfOne(Apply(l, Delete(1)), e1);
  }

  lemma RecentOfOne(l: Log, e: Entry)
    requires l.entries == [e] && |e| == LOG_OVERHEAD && l.stored == 48
    ensures Total(l.entries) == LOG_OVERHEAD && LongestSuffix(l.entries, 30) == 0
    ensures RecentSkip(l, 30) == 1 && RecentSize(l, 30) == 0
  {
    SingleTotal(e);
    assert l.entries[1..] == [];
    assert LongestSuffix([], 30) == 0;
  }

  // ---- Retrieving from an index

  /** How many entries from the front fit `room`. */
  function LongestRun(q: seq<Entry>, room: nat): nat {
    if q == [] || |q[0]| > room then 0 else 1 + LongestRun(q[1..], room - |q[0]|)
  }

  lemma {:induction false} LongestRunIsLongest(q: seq<Entry>, room: nat)
    ensures var m := LongestRun(q, room);
            && m <= |q| && Total(q[..m]) <= room
            && (m < |q| ==> Total(q[..m + 1]) > room)
    decreases |q|
  {
    if q == [] {
    } else if |q[0]| > room {
      assert q[..1] == [q[0]] + [];
      assert Flat(q[..1]) == q[0] + Flat([]);
    } else {
      LongestRunIsLongest(q[1..], room - |q[0]|);
      var m := LongestRun(q[1..], room - |q[0]|);
      assert q[..m + 1] == [q[0]] + q[1..][..m];
      if m < |q[1..]| {
        assert q[..m + 2] == [q[0]] + q[1..][..m + 1];
      }
    }
  }

  lemma {:induction false} LongestRunUnique(q: seq<Entry>, room: nat, m: nat)
    requires m <= |q| && Total(q[..m]) <= room && (m < |q| ==> Total(q[..m + 1]) > room)
    ensures m == LongestRun(q, room)
    decreases |q|
  {
    if q == [] {
    } else {
      assert Flat(q[..1]) == q[0] + Flat([]) by {
        assert q[..1][1..] == [];
      }
      if m == 0 {
        assert q[..m + 1] == q[..1];
      } else {
        assert q[..m] == [q[0]] + q[1..][..m - 1];
        if m < |q| {
          assert q[..m + 1] == [q[0]] + q[1..][..m];
        }
        LongestRunUnique(q[1..], room - |q[0]|, m - 1);
      }
    }
  }
}
