/** Runs of the secure call machine, and what holds in every state they reach.
    The call stack is nowhere stored in the database; `frames` lists the suspended request
    functions on the main stack, each with the machine state its request found. */
module CallRuns {
  import opened Words
  import opened Distinct
  import opened PartitionDb
  import opened CallMachine

  datatype Frame = Frame(act: Activation, callee: u32, entryPsp: u32, before: Core)

  datatype Halt = NotHalted | HaltedBy(reason: HaltReason)

  datatype Machine = Machine(core: Core, frames: seq<Frame>, halt: Halt)

  /** What the code on the processor can do next. `lr` is the EXC_RETURN value of the return SVC. */
  datatype Action =
    | Request(req: SfnReq)
    | Return(retVal: int, lr: u32)
    | SetBuffer(arg: u32)
    | MoveStack(psp: u32)

  /** The core is back where the refused request left it. */
  function Refused(c: Core, r: SfnReq): (c': Core)
    requires WellIndexed(c)
    ensures c' == c
  {
    if ViaSvc(c, r) then LeaveSvc(EnterSvc(c)) else c
  }

  function FrameOf(c: Core, r: SfnReq): Frame
    requires WellIndexed(c) && (r.SfnReq? ==> Registered(c, r.spId)) && Admission(c, r) == Success
  {
    Frame(ActivationOf(c, r), PartitionIdx(c.rows, r.spId), Called(c, r).psp, c)
  }

  /** One action; those the processor cannot take in this state leave it unchanged. */
  function Step(m: Machine, a: Action): (m': Machine)
    requires WellIndexed(m.core)
    ensures WellIndexed(m'.core) && SameSetting(m.core, m'.core)
  {
    if m.halt != NotHalted then m
    else match a
      case Request(r) =>
        if r.SfnReq? && !Registered(m.core, r.spId) then m
        else if Admission(m.core, r) == Success then
          m.(core := Called(m.core, r), frames := m.frames + [FrameOf(m.core, r)])
        else m.(core := Refused(m.core, r))
      case Return(retVal, lr) =>
        if m.frames == [] then m
        else
          var o := Returned(m.core, m.frames[|m.frames| - 1].act, retVal, lr);
          (match o
           case Back(c) => m.(core := c, frames := m.frames[..|m.frames| - 1])
           case Halted(c, reason) => m.(core := c, halt := HaltedBy(reason)))
      case SetBuffer(arg) =>
        if m.frames == [] || m.core.running >= |m.core.rows| then m
        else m.(core := LeaveSvc(SetBufferArea(EnterSvc(m.core), arg).0))
      case MoveStack(psp) =>
        if m.frames == [] then m else m.(core := m.core.(psp := psp))
  }

  function Run(m: Machine, actions: seq<Action>): (m': Machine)
    requires WellIndexed(m.core)
    ensures WellIndexed(m'.core) && SameSetting(m.core, m'.core)
    decreases |actions|
  {
    if actions == [] then m else Run(Step(m, actions[0]), actions[1..])
  }

  // ---- The chain of calls

  /** `ch` lists the active partitions, root first; the database describes exactly this chain. */
  ghost predicate ChainShape(c: Core, ch: seq<u32>) {
    && WellIndexed(c)
    && |ch| >= 1
    && (forall k :: 0 <= k < |ch| ==> ch[k] < |c.rows|)
    && NoDuplicates(ch)
    && c.running == ch[|ch| - 1]
    && c.lock == |ch| - 1
    && c.rows[ch[0]].caller == INVALID_PARTITION_IDX
    && (forall k :: 0 <= k < |ch| - 1 ==> c.rows[ch[k]].state == Blocked)
    && (forall k {:trigger CalledByPrevious(c, ch, k)} :: 1 <= k < |ch| ==> CalledByPrevious(c, ch, k))
    && (|ch| > 1 || !c.initPhase ==> c.rows[c.running].state == Running)
    && (forall i :: 0 <= i < |c.rows| && i !in ch ==> OffChain(c.rows[i]))
  }

  predicate CalledByPrevious(c: Core, ch: seq<u32>, k: int) {
    1 <= k < |ch| && ch[k] < |c.rows| && c.rows[ch[k]].caller == ch[k - 1]
  }

  predicate OffChain(r: Row) {
    && (r.state == Uninit || r.state == Idle || r.state == Closed)
    && (r.state == Idle ==> r.caller == INVALID_PARTITION_IDX)
  }

  /** The database after an accepted request, row by row. */
  ghost predicate CallEffect(c: Core, c': Core, callee: u32, psp: u32) {
    && |c'.rows| == |c.rows| <= MAX_PARTITIONS && c.running < |c.rows| && callee < |c.rows| && callee != c.running
    && c'.running == callee && c'.lock == c.lock + 1
    && c'.initPhase == c.initPhase && c'.platform == c.platform
    && (forall i :: 0 <= i < |c.rows| && i != callee && i != c.running ==> c'.rows[i] == c.rows[i])
    && c'.rows[c.running] == c.rows[c.running].(state := Blocked, stackPtr := c'.rows[c.running].stackPtr)
    && c'.rows[callee] == c.rows[callee].(state := Running, caller := c.running, origPsp := psp,
                            origPsplim := c.psplim, origLr := c.platform.returnLr, share := c'.rows[callee].share)
  }

  lemma PushedRows(c: Core, r: SfnReq, callee: u32)
    requires r.SfnReq? && c.running < |c.rows| && callee < |c.rows| && callee != c.running
    ensures var rows := PushRows(c, r, callee);
      && (forall i :: 0 <= i < |c.rows| && i != callee && i != c.running ==> rows[i] == c.rows[i])
      && rows[c.running] == c.rows[c.running].(state := Blocked, stackPtr := rows[c.running].stackPtr)
      && rows[callee] == c.rows[callee].(state := Running, caller := c.running, origPsp := c.psp,
           origPsplim := c.psplim, origLr := c.platform.returnLr, share := RequestShare(r))
  {
  }

  lemma CalledFields(c: Core, r: SfnReq)
    requires WellIndexed(c) && (r.SfnReq? ==> Registered(c, r.spId)) && Admission(c, r) == Success
    ensures var c' := Called(c, r);
      && c'.rows == PushRows(c.(psp := Arrived(c, r).psp), r, PartitionIdx(c.rows, r.spId))
      && c'.running == PartitionIdx(c.rows, r.spId) && c'.lock == c.lock + 1
      && c'.initPhase == c.initPhase && c'.platform == c.platform
  {
    var a := Arrived(c, r);
    assert a == c.(psp := a.psp);
    assert Called(c, r).rows == PushLock(a, r).rows;
  }

  lemma RowsGiveEffect(c: Core, r: SfnReq, callee: u32, psp: u32, c': Core)
    requires r.SfnReq? && c.running < |c.rows| <= MAX_PARTITIONS && callee < |c.rows| && callee != c.running
    requires c'.rows == PushRows(c.(psp := psp), r, callee)
    requires c'.running == callee && c'.lock == c.lock + 1
    requires c'.initPhase == c.initPhase && c'.platform == c.platform
    ensures CallEffect(c, c', callee, psp)
  {
    PushedRows(c.(psp := psp), r, callee);
  }

  lemma CalledEffect(c: Core, r: SfnReq)
    requires WellIndexed(c) && (r.SfnReq? ==> Registered(c, r.spId)) && Admission(c, r) == Success
    requires PartitionIdx(c.rows, r.spId) != c.running
    ensures CallEffect(c, Called(c, r), PartitionIdx(c.rows, r.spId), Arrived(c, r).psp)
  {
    var c', callee, psp := Called(c, r), PartitionIdx(c.rows, r.spId), Arrived(c, r).psp;
    assert callee < |c.rows| && c.running < |c.rows| by {
    }
    CalledFields(c, r);
    RowsGiveEffect(c, r, callee, psp, c');
  }

  /** The database after a pop, row by row. */
  ghost predicate PopEffect(c: Core, c': Core) {
    && |c'.rows| == |c.rows| <= MAX_PARTITIONS && c.running < |c.rows|
    && c'.running == c.rows[c.running].caller < |c.rows| && c'.running != c.running
    && c'.lock == c.lock - 1
    && c'.initPhase == c.initPhase && c'.platform == c.platform
    && (forall i :: 0 <= i < |c.rows| && i != c.running && i != c'.running ==> c'.rows[i] == c.rows[i])
    && c'.rows[c'.running] == c.rows[c'.running].(state := Running)
    && c'.rows[c.running] == c.rows[c.running].(state := Idle, caller := INVALID_PARTITION_IDX, origPsp := 0,
                               origPsplim := 0, origLr := 0, share := Disable, stackPtr := c'.rows[c.running].stackPtr)
  }

  lemma PoppedEffect(c: Core)
    requires WellIndexed(c) && PopCheck(c) == Success && c.rows[c.running].caller != c.running
    ensures PopEffect(c, PopLock(c))
  {
    var rows := PopRows(c);
    assert PopLock(c).rows == rows;
  }

  lemma CalleeIsOffChain(c: Core, r: SfnReq, ch: seq<u32>)
    requires ChainShape(c, ch) && (r.SfnReq? ==> Registered(c, r.spId)) && Admission(c, r) == Success
    requires |ch| > 1 || !c.initPhase
    ensures PartitionIdx(c.rows, r.spId) !in ch
    ensures c.rows[c.running].state == Running
    ensures c.rows[PartitionIdx(c.rows, r.spId)].state == Idle || c.initPhase
  {
    assert forall k :: 0 <= k < |ch| ==> c.rows[ch[k]].state == Blocked || c.rows[ch[k]].state == Running;
  }

  lemma PushKeepsLinks(c: Core, c': Core, callee: u32, psp: u32, ch: seq<u32>)
    requires ChainShape(c, ch) && CallEffect(c, c', callee, psp) && callee !in ch
    ensures forall k :: 0 <= k < |ch| ==> c'.rows[ch[k]].state == Blocked && c'.rows[ch[k]].caller == c.rows[ch[k]].caller
  {
    forall k | 0 <= k < |ch|
      ensures c'.rows[ch[k]].state == Blocked && c'.rows[ch[k]].caller == c.rows[ch[k]].caller
    {
      if k < |ch| - 1 {
        assert ch[k] != ch[|ch| - 1];
      }
    }
  }

  lemma PushKeepsIndices(c: Core, c': Core, callee: u32, psp: u32)
    requires WellIndexed(c) && CallEffect(c, c', callee, psp)
    ensures WellIndexed(c')
  {
    assert forall i :: 0 <= i < |c.rows| ==> c'.rows[i].caller == c.rows[i].caller || c'.rows[i].caller == c.running;
  }

  lemma PushLeavesOffChain(c: Core, c': Core, callee: u32, psp: u32, ch: seq<u32>)
    requires ChainShape(c, ch) && CallEffect(c, c', callee, psp)
    ensures forall i :: 0 <= i < |c'.rows| && i !in ch + [callee] ==> OffChain(c'.rows[i])
  {
    assert forall i :: 0 <= i < |c'.rows| && i !in ch + [callee] ==> i !in ch && i != callee && i != c.running;
  }

  lemma PushExtendsChain(c: Core, c': Core, callee: u32, psp: u32, ch: seq<u32>)
    requires ChainShape(c, ch) && CallEffect(c, c', callee, psp) && callee !in ch
    ensures ChainShape(c', ch + [callee])
  {
    var ch' := ch + [callee];
    PushKeepsLinks(c, c', callee, psp, ch);
    PushKeepsIndices(c, c', callee, psp);
    PushLeavesOffChain(c, c', callee, psp, ch);
    assert NoDuplicates(ch');
    forall k | 1 <= k < |ch'|
      ensures CalledByPrevious(c', ch', k)
    {
      if k < |ch| {
        assert CalledByPrevious(c, ch, k);
      }
    }
  }

  lemma PopKeepsLinks(c: Core, c': Core, ch: seq<u32>)
    requires ChainShape(c, ch) && |ch| > 1 && PopEffect(c, c')
    ensures c'.running == ch[|ch| - 2]
    ensures forall k :: 0 <= k < |ch| - 1 ==>
              && c'.rows[ch[k]].caller == c.rows[ch[k]].caller
              && c'.rows[ch[k]].state == if k == |ch| - 2 then Running else Blocked
  {
    assert CalledByPrevious(c, ch, |ch| - 1);
    forall k | 0 <= k < |ch| - 1
      ensures c'.rows[ch[k]].caller == c.rows[ch[k]].caller
      ensures c'.rows[ch[k]].state == if k == |ch| - 2 then Running else Blocked
    {
      assert ch[k] != c.running;
      assert k != |ch| - 2 ==> ch[k] != c'.running;
    }
  }

  lemma PopKeepsIndices(c: Core, c': Core)
    requires WellIndexed(c) && PopEffect(c, c')
    ensures WellIndexed(c')
  {
    assert forall i :: 0 <= i < |c.rows| ==>
      c'.rows[i].caller == c.rows[i].caller || c'.rows[i].caller == INVALID_PARTITION_IDX;
  }

  lemma PopLeavesOffChain(c: Core, c': Core, ch: seq<u32>)
    requires ChainShape(c, ch) && |ch| > 1 && PopEffect(c, c') && c'.running == ch[|ch| - 2]
    ensures forall i :: 0 <= i < |c'.rows| && i !in ch[..|ch| - 1] ==> OffChain(c'.rows[i])
  {
    var ch' := ch[..|ch| - 1];
    assert ch'[|ch| - 2] == c'.running;
    forall i | 0 <= i < |c'.rows| && i !in ch'
      ensures OffChain(c'.rows[i])
    {
      assert i in ch ==> i == ch[|ch| - 1];
    }
  }

  lemma PopShortensChain(c: Core, c': Core, ch: seq<u32>)
    requires ChainShape(c, ch) && |ch| > 1 && PopEffect(c, c')
    ensures ChainShape(c', ch[..|ch| - 1])
  {
    var ch' := ch[..|ch| - 1];
    PopKeepsLinks(c, c', ch);
    PopKeepsIndices(c, c');
    PopLeavesOffChain(c, c', ch);
    forall k | 1 <= k < |ch'|
      ensures CalledByPrevious(c', ch', k)
    {
      assert CalledByPrevious(c, ch, k);
    }
  }

  // ---- What a pop gives back

  /** A row without what a running callee may change: its stack pointer and share mode.
      Saved registers of a partition that is not active are dead. */
  function Skeleton(r: Row): Row {
    var r1 := r.(share := Disable, stackPtr := 0);
    if r.state == Running || r.state == Blocked then r1
    else r1.(origPsp := 0, origPsplim := 0, origLr := 0)
  }

  lemma SkeletonFields(a: Row, b: Row)
    requires Skeleton(a) == Skeleton(b)
    ensures SameStatic(a, b) && a.state == b.state && a.caller == b.caller
  {
  }

  /** The same partition states, caller links, live saved registers, running index, lock and stack limit. */
  ghost predicate SameSkeleton(a: Core, b: Core) {
    && a.platform == b.platform && a.initPhase == b.initPhase
    && a.running == b.running && a.lock == b.lock && a.psplim == b.psplim
    && |a.rows| == |b.rows|
    && forall i :: 0 <= i < |a.rows| ==> Skeleton(a.rows[i]) == Skeleton(b.rows[i])
  }

  function ArrivalPsp(f: Frame): u32 {
    if f.act.viaSvc then Sub32(f.before.psp, SVC_STACK_FRAME_SIZE) else f.before.psp
  }

  function RowInCall(f: Frame, i: nat): Row
    requires i < |f.before.rows|
  {
    var r := f.before.rows[i];
    if i == f.callee then
      r.(state := Running, caller := f.before.running, origPsp := ArrivalPsp(f),
         origPsplim := f.before.psplim, origLr := f.before.platform.returnLr)
    else if i == f.before.running then r.(state := Blocked)
    else r
  }

  /** `c` is the request of frame `f` and nothing else on top of the state `f.before`. */
  ghost predicate Linked(f: Frame, c: Core) {
    && c.platform == f.before.platform && c.initPhase == f.before.initPhase
    && c.running == f.callee && c.lock == f.before.lock + 1
    && c.psplim == (if f.act.direct then f.before.psplim
                    else if f.callee < |f.before.rows| then PartitionPsplim(f.before, f.callee) else 0)
    && |c.rows| == |f.before.rows|
    && forall i :: 0 <= i < |c.rows| ==> Skeleton(c.rows[i]) == Skeleton(RowInCall(f, i))
  }

  /** What admission established about the request of `f`. */
  ghost predicate FrameOk(f: Frame) {
    var b := f.before;
    && WellIndexed(b)
    && b.running < |b.rows| && f.callee < |b.rows| && f.callee != b.running
    && (f.act.nsCaller <==> !b.rows[b.running].secure)
    && (f.act.direct <==> b.platform.level == Level1 && b.rows[b.running].secure && !b.initPhase)
    && (f.act.viaSvc <==> b.rows[b.running].secure && (b.platform.level == Level3 || b.initPhase))
  }

  /** A call between a running caller and an idle callee: every call but the boot-time first ones. */
  ghost predicate Plain(f: Frame) {
    && FrameOk(f)
    && f.before.rows[f.before.running].state == Running
    && f.before.rows[f.callee].state == Idle
    && f.before.rows[f.callee].caller == INVALID_PARTITION_IDX
  }

  lemma CalledRegisters(c: Core, r: SfnReq)
    requires WellIndexed(c) && (r.SfnReq? ==> Registered(c, r.spId)) && Admission(c, r) == Success
    ensures FrameOf(c, r).callee == c.running || FrameOk(FrameOf(c, r))
    ensures Arrived(c, r).psp == ArrivalPsp(FrameOf(c, r))
    ensures Called(c, r).psplim ==
            if FrameOf(c, r).act.direct then c.psplim else PartitionPsplim(c, FrameOf(c, r).callee)
  {
  }

  lemma CallLinks(f: Frame, c': Core)
    requires FrameOk(f) && CallEffect(f.before, c', f.callee, ArrivalPsp(f))
    requires c'.psplim == if f.act.direct then f.before.psplim else PartitionPsplim(f.before, f.callee)
    ensures Linked(f, c')
  {
  }

  /** The rows the pop leaves: the call undone, the callee idle, the caller running. */
  ghost predicate Restored(f: Frame, c: Core) {
    var b := f.before;
    && c.platform == b.platform && c.initPhase == b.initPhase
    && c.running == b.running && c.lock == b.lock && c.psplim == b.psplim
    && (!f.act.direct ==> c.psp == b.psp)
    && |c.rows| == |b.rows|
    && forall i :: 0 <= i < |c.rows| ==> Skeleton(c.rows[i]) == Skeleton(RestoredRow(f, i))
  }

  /** The top frame's caller link and saved registers are in the running row. */
  lemma LinkedSaves(f: Frame, c: Core)
    requires FrameOk(f) && Linked(f, c)
    ensures c.running < |c.rows|
    ensures var row := c.rows[c.running];
            && row.caller == f.before.running && row.origPsp == ArrivalPsp(f)
            && row.origPsplim == f.before.psplim && row.origLr == f.before.platform.returnLr
    ensures c.rows[f.before.running].secure == f.before.rows[f.before.running].secure
  {
    assert Skeleton(c.rows[f.callee]) == Skeleton(RowInCall(f, f.callee));
    assert Skeleton(c.rows[f.before.running]) == Skeleton(RowInCall(f, f.before.running));
  }

  function RestoredRow(f: Frame, i: nat): Row
    requires i < |f.before.rows|
  {
    var r := f.before.rows[i];
    if i == f.callee then r.(state := Idle, caller := INVALID_PARTITION_IDX)
    else if i == f.before.running then r.(state := Running)
    else r
  }

  lemma PopRestoresRow(f: Frame, c: Core, c': Core, i: nat)
    requires FrameOk(f) && Linked(f, c) && PopEffect(c, c') && i < |c.rows|
    ensures Skeleton(c'.rows[i]) == Skeleton(RestoredRow(f, i))
  {
    LinkedSaves(f, c);
    assert Skeleton(c.rows[i]) == Skeleton(RowInCall(f, i));
  }

  lemma PopRestores(f: Frame, c: Core, c': Core)
    requires FrameOk(f) && Linked(f, c) && PopEffect(c, c')
    requires c'.psplim == f.before.psplim && (!f.act.direct ==> c'.psp == f.before.psp)
    ensures Restored(f, c')
  {
    LinkedSaves(f, c);
    forall i | 0 <= i < |c'.rows|
      ensures Skeleton(c'.rows[i]) == Skeleton(RestoredRow(f, i))
    {
      PopRestoresRow(f, c, c', i);
    }
  }

  /** The pop finds the caller, restores its context exactly for calls that switched stacks, and undoes the call. */
  lemma LinkedPop(f: Frame, c1: Core)
    requires FrameOk(f) && Linked(f, c1) && WellIndexed(c1)
    ensures PopCheck(c1) == Success && RestoresContext(c1) == !f.act.direct
    ensures PopEffect(c1, PopLock(c1))
    ensures !f.act.direct ==> PopLock(c1).psp == ArrivalPsp(f) && PopLock(c1).psplim == f.before.psplim
    ensures f.act.direct ==> PopLock(c1).psp == c1.psp && PopLock(c1).psplim == c1.psplim
    ensures forall lr: u32 :: PoppedLr(c1, lr) == if f.act.direct then lr else c1.platform.returnLr
  {
    LinkedSaves(f, c1);
    PoppedEffect(c1);
  }

  /** A return never meets the unlock or link-register halts, and hands the caller its context back. */
  lemma ReturnRestores(f: Frame, c: Core, retVal: int, lr: u32)
    requires FrameOk(f) && Linked(f, c) && WellIndexed(c)
    requires f.act.direct || !ReservedValue(retVal)
    ensures Returned(c, f.act, retVal, lr).Back?
    ensures PopEffect(c, Returned(c, f.act, retVal, lr).core)
    ensures Restored(f, Returned(c, f.act, retVal, lr).core)
  {
    var c1 := if f.act.direct then c else EnterSvc(c);
    LinkedPop(f, c1);
    var c2 := PopLock(c1);
    ReturnedCore(f, c, retVal, lr, c1, c2);
    PopRestores(f, c, Returned(c, f.act, retVal, lr).core);
  }

  lemma ReturnedCore(f: Frame, c: Core, retVal: int, lr: u32, c1: Core, c2: Core)
    requires WellIndexed(c) && (f.act.direct || !ReservedValue(retVal))
    requires c1 == (if f.act.direct then c else EnterSvc(c)) && WellIndexed(c1)
    requires PopCheck(c1) == Success && c2 == PopLock(c1)
    requires f.act.direct || PoppedLr(c1, lr) == c.platform.returnLr
    requires PopEffect(c1, c2)
    ensures var o := Returned(c, f.act, retVal, lr);
            && o.Back? && PopEffect(c, o.core) && o.core.psplim == c2.psplim
            && o.core.psp == if f.act.viaSvc then Add32(c2.psp, SVC_STACK_FRAME_SIZE) else c2.psp
  {
    var o := Returned(c, f.act, retVal, lr);
    assert o.Back? && o.core.rows == c2.rows && o.core.running == c2.running && o.core.lock == c2.lock;
  }

  lemma PlainRestoresSkeleton(f: Frame, c: Core)
    requires Plain(f) && Restored(f, c)
    ensures SameSkeleton(c, f.before)
  {
    var b := f.before;
    assert b.rows[b.running].(state := Running) == b.rows[b.running];
    assert b.rows[f.callee].(state := Idle, caller := INVALID_PARTITION_IDX) == b.rows[f.callee];
  }

  lemma LinkedBySkeleton(f: Frame, a: Core, b: Core)
    requires Linked(f, a) && SameSkeleton(b, a)
    ensures Linked(f, b)
  {
    forall i | 0 <= i < |b.rows|
      ensures Skeleton(b.rows[i]) == Skeleton(RowInCall(f, i)) {
      assert Skeleton(b.rows[i]) == Skeleton(a.rows[i]);
    }
  }

  // ---- The invariant of every run

  /** The core at the given depth: the snapshots of the frames, then the current one. */
  function CoreAt(m: Machine, k: nat): Core
    requires k <= |m.frames|
  {
    if k == |m.frames| then m.core else m.frames[k].before
  }

  /** The active partitions, root first, as the suspended requests name them. */
  function Chain(m: Machine): (ch: seq<u32>)
    ensures |ch| == |m.frames| + 1
  {
    [CoreAt(m, 0).running] + seq(|m.frames|, k requires 0 <= k < |m.frames| => m.frames[k].callee)
  }

  ghost predicate LinkedAt(m: Machine, k: nat) {
    k < |m.frames| && FrameOk(m.frames[k]) && Linked(m.frames[k], CoreAt(m, k + 1))
  }

  ghost predicate FramesLinked(m: Machine) {
    forall k: nat {:trigger LinkedAt(m, k)} :: k < |m.frames| ==> LinkedAt(m, k)
  }

  ghost predicate FramesPlain(m: Machine) {
    forall k :: 0 <= k < |m.frames| && (k > 0 || !m.core.initPhase) ==> Plain(m.frames[k])
  }

  predicate DistinctIds(c: Core) {
    forall i, j :: 0 <= i < j < |c.rows| ==> c.rows[i].id != c.rows[j].id
  }

  /** The machine stands on the resting core `base`: boot's last core, or the core of one boot-time init. */
  ghost predicate Inv(m: Machine, base: Core) {
    && ChainShape(m.core, Chain(m))
    && FramesLinked(m)
    && FramesPlain(m)
    && SameSkeleton(CoreAt(m, 0), base)
    && DistinctIds(m.core)
    && (m.core.initPhase ==> m.frames != [] && Chain(m)[0] == CORE_ID && m.core.rows[CORE_ID].id == CORE_ID)
    && (m.halt == NotHalted || m.halt == HaltedBy(ReservedReturn))
  }

  lemma SkeletonLinks(a: Core, b: Core)
    requires SameSkeleton(b, a)
    ensures forall i :: 0 <= i < |a.rows| ==> b.rows[i].state == a.rows[i].state && b.rows[i].caller == a.rows[i].caller
  {
    forall i | 0 <= i < |a.rows|
      ensures b.rows[i].state == a.rows[i].state && b.rows[i].caller == a.rows[i].caller
    {
      assert Skeleton(b.rows[i]) == Skeleton(a.rows[i]);
    }
  }

  lemma ChainByLinks(a: Core, b: Core, ch: seq<u32>)
    requires ChainShape(a, ch) && |b.rows| == |a.rows|
    requires a.running == b.running && a.lock == b.lock && a.initPhase == b.initPhase
    requires forall i :: 0 <= i < |a.rows| ==> b.rows[i].state == a.rows[i].state && b.rows[i].caller == a.rows[i].caller
    ensures ChainShape(b, ch)
  {
    forall k | 1 <= k < |ch|
      ensures CalledByPrevious(b, ch, k)
    {
      assert CalledByPrevious(a, ch, k);
    }
  }

  lemma ChainBySkeleton(a: Core, b: Core, ch: seq<u32>)
    requires ChainShape(a, ch) && SameSkeleton(b, a)
    ensures ChainShape(b, ch)
  {
    SkeletonLinks(a, b);
    ChainByLinks(a, b, ch);
  }

  lemma LocalKeepsFrames(m: Machine, c': Core)
    requires FramesLinked(m) && SameSkeleton(c', m.core)
    ensures FramesLinked(m.(core := c'))
    ensures Chain(m.(core := c')) == Chain(m)
  {
    var m' := m.(core := c');
    forall k: nat | k < |m'.frames|
      ensures LinkedAt(m', k)
    {
      assert LinkedAt(m, k);
      if k + 1 == |m.frames| {
        LinkedBySkeleton(m.frames[k], m.core, c');
      }
    }
  }

  lemma SkeletonKeepsIds(a: Core, b: Core)
    requires SameSkeleton(b, a) && DistinctIds(a)
    ensures DistinctIds(b) && forall i :: 0 <= i < |a.rows| ==> b.rows[i].id == a.rows[i].id
  {
    forall i | 0 <= i < |a.rows|
      ensures b.rows[i].id == a.rows[i].id
    {
      assert Skeleton(b.rows[i]) == Skeleton(a.rows[i]);
    }
  }

  lemma SkeletonTransitive(a: Core, b: Core, c: Core)
    requires SameSkeleton(a, b) && SameSkeleton(b, c)
    ensures SameSkeleton(a, c)
  {
  }

  /** What the running function does between calls leaves the skeleton alone. */
  lemma LocalKeepsInv(m: Machine, c': Core, base: Core)
    requires Inv(m, base) && SameSkeleton(c', m.core)
    ensures Inv(m.(core := c'), base)
    ensures Chain(m.(core := c')) == Chain(m)
  {
    LocalKeepsFrames(m, c');
    ChainBySkeleton(m.core, c', Chain(m));
    SkeletonKeepsIds(m.core, c');
    if m.frames == [] {
      SkeletonTransitive(c', m.core, base);
    }
  }

  lemma SetBufferKeepsSkeleton(c: Core, arg: u32)
    requires WellIndexed(c) && c.running < |c.rows|
    ensures SameSkeleton(LeaveSvc(SetBufferArea(EnterSvc(c), arg).0), c)
  {
  }

  lemma PushKeepsFrames(m: Machine, f: Frame, c': Core)
    requires FramesLinked(m) && FramesPlain(m)
    requires Plain(f) && f.before == m.core && Linked(f, c')
    ensures FramesLinked(m.(core := c', frames := m.frames + [f]))
    ensures FramesPlain(m.(core := c', frames := m.frames + [f]))
    ensures Chain(m.(core := c', frames := m.frames + [f])) == Chain(m) + [f.callee]
    ensures CoreAt(m.(core := c', frames := m.frames + [f]), 0) == CoreAt(m, 0)
  {
    var m' := m.(core := c', frames := m.frames + [f]);
    forall k: nat | k < |m'.frames|
      ensures LinkedAt(m', k)
    {
      if k < |m.frames| {
        assert LinkedAt(m, k);
        assert CoreAt(m', k + 1) == CoreAt(m, k + 1);
      }
    }
  }

  lemma EffectKeepsIds(c: Core, c': Core, callee: u32, psp: u32)
    requires CallEffect(c, c', callee, psp) && DistinctIds(c)
    ensures DistinctIds(c') && forall i :: 0 <= i < |c.rows| ==> c'.rows[i].id == c.rows[i].id
  {
    assert forall i :: 0 <= i < |c.rows| ==> c'.rows[i].id == c.rows[i].id;
  }

  /** In a boot-time init the running partition is not the core, so it reaches idle partitions only. */
  lemma CallIsPlain(m: Machine, r: SfnReq)
    requires ChainShape(m.core, Chain(m)) && DistinctIds(m.core)
    requires m.core.initPhase ==> m.frames != [] && Chain(m)[0] == CORE_ID && m.core.rows[CORE_ID].id == CORE_ID
    requires (r.SfnReq? ==> Registered(m.core, r.spId)) && Admission(m.core, r) == Success
    ensures FrameOf(m.core, r).callee !in Chain(m)
    ensures Plain(FrameOf(m.core, r))
  {
    var ch := Chain(m);
    CalleeIsOffChain(m.core, r, ch);
    CalledRegisters(m.core, r);
    if m.core.initPhase {
      assert ch[0] != ch[|ch| - 1];
      assert m.core.rows[m.core.running].id != CORE_ID;
    }
    assert m.core.rows[FrameOf(m.core, r).callee].state == Idle;
  }

  lemma RequestKeepsInv(m: Machine, r: SfnReq, base: Core)
    requires Inv(m, base) && m.halt == NotHalted
    requires (r.SfnReq? ==> Registered(m.core, r.spId)) && Admission(m.core, r) == Success
    ensures Inv(Step(m, Request(r)), base)
    ensures Chain(Step(m, Request(r))) == Chain(m) + [PartitionIdx(m.core.rows, r.spId)]
  {
    var f := FrameOf(m.core, r);
    var c' := Called(m.core, r);
    CallIsPlain(m, r);
    CalledRegisters(m.core, r);
    CalledEffect(m.core, r);
    PushKeepsInv(m, f, c', base);
  }

  lemma PushKeepsInv(m: Machine, f: Frame, c': Core, base: Core)
    requires Inv(m, base) && m.halt == NotHalted
    requires Plain(f) && f.before == m.core && f.callee !in Chain(m)
    requires CallEffect(m.core, c', f.callee, ArrivalPsp(f))
    requires c'.psplim == if f.act.direct then f.before.psplim else PartitionPsplim(f.before, f.callee)
    ensures Inv(m.(core := c', frames := m.frames + [f]), base)
    ensures Chain(m.(core := c', frames := m.frames + [f])) == Chain(m) + [f.callee]
  {
    CallLinks(f, c');
    PushKeepsFrames(m, f, c');
    PushExtendsChain(m.core, c', f.callee, ArrivalPsp(f), Chain(m));
    EffectKeepsIds(m.core, c', f.callee, ArrivalPsp(f));
  }

  // ---- Returns

  function Top(m: Machine): Frame
    requires m.frames != []
  {
    m.frames[|m.frames| - 1]
  }

  function Below(m: Machine): seq<Frame>
    requires m.frames != []
  {
    m.frames[..|m.frames| - 1]
  }

  lemma TopLinked(m: Machine)
    requires FramesLinked(m) && m.frames != []
    ensures FrameOk(Top(m)) && Linked(Top(m), m.core)
  {
    assert LinkedAt(m, |m.frames| - 1);
  }

  /** Stepping back under the top frame, to the state its request found. */
  lemma RewindKeepsFrames(m: Machine)
    requires FramesLinked(m) && m.frames != []
    ensures FramesLinked(m.(core := Top(m).before, frames := Below(m)))
    ensures Chain(m.(core := Top(m).before, frames := Below(m))) == Chain(m)[..|m.frames|]
  {
    var m' := m.(core := Top(m).before, frames := Below(m));
    forall k: nat | k < |m'.frames|
      ensures LinkedAt(m', k)
    {
      assert LinkedAt(m, k);
      assert CoreAt(m', k + 1) == CoreAt(m, k + 1);
    }
  }

  /** The frames below the popped one still link the state the pop leaves. */
  lemma PopKeepsFrames(m: Machine, c': Core)
    requires FramesLinked(m) && m.frames != [] && SameSkeleton(c', Top(m).before)
    ensures FramesLinked(m.(core := c', frames := Below(m)))
    ensures Chain(m.(core := c', frames := Below(m))) == Chain(m)[..|m.frames|]
  {
    var rewound := m.(core := Top(m).before, frames := Below(m));
    RewindKeepsFrames(m);
    LocalKeepsFrames(rewound, c');
  }

  lemma PopKeepsBase(m: Machine, c': Core, base: Core)
    requires SameSkeleton(CoreAt(m, 0), base) && m.frames != [] && SameSkeleton(c', Top(m).before)
    ensures SameSkeleton(CoreAt(m.(core := c', frames := Below(m)), 0), base)
  {
    if |m.frames| == 1 {
      SkeletonTransitive(c', Top(m).before, base);
    }
  }

  lemma PopKeepsPlain(m: Machine, c': Core)
    requires FramesPlain(m) && m.frames != [] && c'.initPhase == m.core.initPhase
    ensures FramesPlain(m.(core := c', frames := Below(m)))
  {
  }

  /** What the pop does to the database itself: the chain one shorter, identifiers kept. */
  lemma PopKeepsShape(m: Machine, c': Core)
    requires ChainShape(m.core, Chain(m)) && m.frames != [] && DistinctIds(m.core) && PopEffect(m.core, c')
    ensures ChainShape(c', Chain(m)[..|m.frames|]) && DistinctIds(c')
    ensures c'.initPhase == m.core.initPhase && |c'.rows| == |m.core.rows|
    ensures forall i :: 0 <= i < |c'.rows| ==> c'.rows[i].id == m.core.rows[i].id
  {
    PopShortensChain(m.core, c', Chain(m));
    PopKeepsIds(m.core, c');
  }

  /** A pop that restores the skeleton of the state below keeps the invariant. */
  lemma PopKeepsInv(m: Machine, c': Core, base: Core)
    requires Inv(m, base) && m.frames != []
    requires !m.core.initPhase || |m.frames| > 1
    requires ChainShape(c', Chain(m)[..|m.frames|]) && DistinctIds(c') && SameSkeleton(c', Top(m).before)
    requires c'.initPhase == m.core.initPhase && |c'.rows| == |m.core.rows|
    requires forall i :: 0 <= i < |c'.rows| ==> c'.rows[i].id == m.core.rows[i].id
    ensures Inv(m.(core := c', frames := Below(m)), base)
    ensures Chain(m.(core := c', frames := Below(m))) == Chain(m)[..|m.frames|]
  {
    PopKeepsFrames(m, c');
    PopKeepsBase(m, c', base);
    PopKeepsPlain(m, c');
  }

  lemma PopKeepsIds(c: Core, c': Core)
    requires PopEffect(c, c') && DistinctIds(c)
    ensures DistinctIds(c') && forall i :: 0 <= i < |c.rows| ==> c'.rows[i].id == c.rows[i].id
  {
    assert forall i :: 0 <= i < |c.rows| ==> c'.rows[i].id == c.rows[i].id;
  }

  lemma ReturnStep(m: Machine, retVal: int, lr: u32)
    requires WellIndexed(m.core) && m.halt == NotHalted && m.frames != []
    requires Returned(m.core, Top(m).act, retVal, lr).Back?
    ensures Step(m, Return(retVal, lr)) ==
            m.(core := Returned(m.core, Top(m).act, retVal, lr).core, frames := Below(m))
  {
  }

  /** An accepted return pops the top frame and restores the state its request found. */
  lemma ReturnKeepsInv(m: Machine, retVal: int, lr: u32, base: Core)
    requires Inv(m, base) && m.halt == NotHalted && m.frames != []
    requires Top(m).act.direct || !ReservedValue(retVal)
    requires m.core.initPhase ==> |m.frames| > 1
    ensures var m' := Step(m, Return(retVal, lr));
            && m'.halt == NotHalted && m'.frames == Below(m)
            && Inv(m', base)
            && Chain(m') == Chain(m)[..|m.frames|]
            && SameSkeleton(m'.core, Top(m).before)
            && (!Top(m).act.direct ==> m'.core.psp == Top(m).before.psp)
  {
    TopLinked(m);
    ReturnRestores(Top(m), m.core, retVal, lr);
    ReturnStep(m, retVal, lr);
    var c' := Returned(m.core, Top(m).act, retVal, lr).core;
    PlainRestoresSkeleton(Top(m), c');
    PopKeepsShape(m, c');
    PopKeepsInv(m, c', base);
  }

  lemma ReservedReturnKeepsInv(m: Machine, retVal: int, lr: u32, base: Core)
    requires Inv(m, base) && m.halt == NotHalted && m.frames != []
    requires !Top(m).act.direct && ReservedValue(retVal)
    ensures Inv(Step(m, Return(retVal, lr)), base)
    ensures Step(m, Return(retVal, lr)).halt == HaltedBy(ReservedReturn)
  {
    LocalKeepsInv(m, EnterSvc(m.core), base);
    ReservedStep(m, retVal, lr);
    HaltKeepsFrames(m.(core := EnterSvc(m.core)), HaltedBy(ReservedReturn));
  }

  lemma ReservedStep(m: Machine, retVal: int, lr: u32)
    requires WellIndexed(m.core) && m.halt == NotHalted && m.frames != []
    requires !Top(m).act.direct && ReservedValue(retVal)
    ensures Step(m, Return(retVal, lr)) == m.(core := EnterSvc(m.core), halt := HaltedBy(ReservedReturn))
  {
  }

  lemma HaltKeepsFrames(m: Machine, halt: Halt)
    requires FramesLinked(m)
    ensures FramesLinked(m.(halt := halt)) && Chain(m.(halt := halt)) == Chain(m)
  {
    forall k: nat | k < |m.frames|
      ensures LinkedAt(m.(halt := halt), k)
    {
      assert LinkedAt(m, k);
    }
  }

  /** The return that ends a boot-time init restores what the init's request found. */
  lemma InitReturnEmpties(m: Machine, retVal: int, lr: u32, base: Core)
    requires Inv(m, base) && m.halt == NotHalted && |m.frames| == 1
    requires Top(m).act.direct || !ReservedValue(retVal)
    ensures var m' := Step(m, Return(retVal, lr));
            m'.halt == NotHalted && m'.frames == [] && Restored(Top(m), m'.core) && PopEffect(m.core, m'.core)
  {
    TopLinked(m);
    ReturnRestores(Top(m), m.core, retVal, lr);
    ReturnStep(m, retVal, lr);
  }

  lemma ReturnStepKeepsInv(m: Machine, retVal: int, lr: u32, base: Core)
    requires Inv(m, base) && m.halt == NotHalted && m.frames != []
    requires var m' := Step(m, Return(retVal, lr)); m'.core.initPhase ==> m'.frames != []
    ensures Inv(Step(m, Return(retVal, lr)), base)
  {
    if !Top(m).act.direct && ReservedValue(retVal) {
      ReservedReturnKeepsInv(m, retVal, lr, base);
    } else {
      if m.core.initPhase && |m.frames| == 1 {
        InitReturnEmpties(m, retVal, lr, base);
      }
      ReturnKeepsInv(m, retVal, lr, base);
    }
  }

  lemma LocalStepSkeleton(m: Machine, a: Action)
    requires WellIndexed(m.core) && m.halt == NotHalted && m.frames != [] && (a.SetBuffer? || a.MoveStack?)
    ensures SameSkeleton(Step(m, a).core, m.core) && Step(m, a) == m.(core := Step(m, a).core)
  {
    if a.SetBuffer? && m.core.running < |m.core.rows| {
      SetBufferKeepsSkeleton(m.core, a.arg);
    }
  }

  lemma LocalStepKeepsInv(m: Machine, a: Action, base: Core)
    requires Inv(m, base) && m.halt == NotHalted && m.frames != [] && (a.SetBuffer? || a.MoveStack?)
    ensures Inv(Step(m, a), base)
  {
    LocalStepSkeleton(m, a);
    LocalKeepsInv(m, Step(m, a).core, base);
  }

  /** Every step keeps the invariant; a boot-time init keeps it until its own return. */
  lemma StepKeepsInv(m: Machine, a: Action, base: Core)
    requires Inv(m, base)
    requires Step(m, a).core.initPhase ==> Step(m, a).frames != []
    ensures Inv(Step(m, a), base)
  {
    if m.halt == NotHalted {
      match a
      case Request(r) =>
        if (r.SfnReq? ==> Registered(m.core, r.spId)) && Admission(m.core, r) == Success {
          RequestKeepsInv(m, r, base);
        }
      case Return(retVal, lr) =>
        if m.frames != [] {
          ReturnStepKeepsInv(m, retVal, lr, base);
        }
      case SetBuffer(_) =>
        if m.frames != [] {
          LocalStepKeepsInv(m, a, base);
        }
      case MoveStack(_) =>
        if m.frames != [] {
          LocalStepKeepsInv(m, a, base);
        }
    }
  }
}
