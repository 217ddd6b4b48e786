/** The imperative core: the global partition database, the big lock and the registers, updated in place
    by the functions of the Secure Partition Manager and of the secure API. */
module SecureCore {
  import opened Words
  import opened PartitionDb
  import opened CallMachine
  import opened CallRuns
  import opened CallTheorems
  import opened CallGuarantees
  import opened Boot
  import opened BootGuarantees

  const XPSR_THUMB: u32 := 0x0100_0000

  /** The eight words of a context frame, lowest address first: R0-R3, R12, LR, return address, xPSR. */
  function FrameWords(r: SfnReq, returnSvc: u32): (ws: seq<u32>)
    requires r.SfnReq?
    ensures |ws| == 8
  {
    r.args + [0, returnSvc, r.sfn, XPSR_THUMB]
  }

  function WordAddr(base: u32, k: nat): u32
    requires k <= 8
  {
    Add32(base, 4 * k)
  }

  /** Memory after words `from`.. of a frame at `base` are stored, highest address first. */
  function WithFrame(mem: map<u32, u32>, base: u32, ws: seq<u32>, from: nat): map<u32, u32>
    requires |ws| == 8 && from <= 8
    decreases 8 - from
  {
    if from == 8 then mem else WithFrame(mem, base, ws, from + 1)[WordAddr(base, from) := ws[from]]
  }

  /** Word `k` of the frame `ws` lies in memory. */
  predicate HoldsWord(mem: map<u32, u32>, base: u32, ws: seq<u32>, k: nat) {
    k < 8 == |ws| && WordAddr(base, k) in mem && mem[WordAddr(base, k)] == ws[k]
  }

  predicate HoldsFrame(mem: map<u32, u32>, base: u32, ws: seq<u32>) {
    forall k: nat :: k < 8 ==> HoldsWord(mem, base, ws, k)
  }

  lemma {:induction false} WordsHeld(mem: map<u32, u32>, base: u32, ws: seq<u32>, from: nat)
    requires |ws| == 8 && from <= 8
    ensures forall k: nat :: from <= k < 8 ==> HoldsWord(WithFrame(mem, base, ws, from), base, ws, k)
    decreases 8 - from
  {
    if from == 8 {
    } else {
      var above, mem' := WithFrame(mem, base, ws, from + 1), WithFrame(mem, base, ws, from);
      WordsHeld(mem, base, ws, from + 1);
      forall k: nat | from <= k < 8
        ensures HoldsWord(mem', base, ws, k)
      {
        assert k > from ==> HoldsWord(above, base, ws, k) && WordAddr(base, k) != WordAddr(base, from);
      }
    }
  }

  lemma {:induction false} OtherWordsKept(mem: map<u32, u32>, base: u32, ws: seq<u32>, from: nat, a: u32)
    requires |ws| == 8 && from <= 8 && forall k :: from <= k < 8 ==> a != WordAddr(base, k)
    ensures a in WithFrame(mem, base, ws, from) <==> a in mem
    ensures a in mem ==> WithFrame(mem, base, ws, from)[a] == mem[a]
    decreases 8 - from
  {
    if from == 8 {
    } else {
      OtherWordsKept(mem, base, ws, from + 1, a);
    }
  }

  /** The exception return that follows unstacks the arguments, the function and the return label;
      no word outside the frame is touched. */
  lemma FrameReadsBack(mem: map<u32, u32>, base: u32, ws: seq<u32>, a: u32)
    requires |ws| == 8
    ensures HoldsFrame(WithFrame(mem, base, ws, 0), base, ws)
    ensures (forall k :: 0 <= k < 8 ==> a != WordAddr(base, k)) ==>
              && (a in WithFrame(mem, base, ws, 0) <==> a in mem)
              && (a in mem ==> WithFrame(mem, base, ws, 0)[a] == mem[a])
  {
    var written := WithFrame(mem, base, ws, 0);
    WordsHeld(mem, base, ws, 0);
    if forall k :: 0 <= k < 8 ==> a != WordAddr(base, k) {
      OtherWordsKept(mem, base, ws, 0, a);
    }
  }

  /** The word at `offset` above `base` is `w`. */
  predicate WordIs(mem: map<u32, u32>, base: u32, offset: u32, w: u32) {
    Add32(base, offset) in mem && mem[Add32(base, offset)] == w
  }

  /** What the exception return unstacks from `base`: R0-R3 are the arguments, R12 is 0, the function's return
      goes to the return label, execution starts at the function in Thumb state. */
  ghost predicate Unstacks(mem: map<u32, u32>, base: u32, r: SfnReq, returnSvc: u32) {
    && r.SfnReq?
    && WordIs(mem, base, 0x00, r.args[0]) && WordIs(mem, base, 0x04, r.args[1])
    && WordIs(mem, base, 0x08, r.args[2]) && WordIs(mem, base, 0x0C, r.args[3])
    && WordIs(mem, base, 0x10, 0) && WordIs(mem, base, 0x14, returnSvc)
    && WordIs(mem, base, 0x18, r.sfn) && WordIs(mem, base, 0x1C, 0x0100_0000)
  }

  /** No word outside the 0x20 bytes from `base` on differs. */
  ghost predicate SameOutside(mem: map<u32, u32>, mem': map<u32, u32>, base: u32) {
    forall a: u32 :: Sub32(a, base) >= 0x20 ==> SameWord(mem, mem', a)
  }

  predicate SameWord(mem: map<u32, u32>, mem': map<u32, u32>, a: u32) {
    (a in mem' <==> a in mem) && (a in mem ==> mem'[a] == mem[a])
  }

  /** The frame of request `r` lies at `base`, and the rest of memory is as before. */
  ghost predicate Framed(mem: map<u32, u32>, mem': map<u32, u32>, base: u32, r: SfnReq, returnSvc: u32) {
    Unstacks(mem', base, r, returnSvc) && SameOutside(mem, mem', base)
  }

  lemma FrameUnstacks(mem: map<u32, u32>, base: u32, r: SfnReq, returnSvc: u32)
    requires r.SfnReq?
    ensures Framed(mem, WithFrame(mem, base, FrameWords(r, returnSvc), 0), base, r, returnSvc)
  {
    var ws := FrameWords(r, returnSvc);
    var mem' := WithFrame(mem, base, ws, 0);
    WordsHeld(mem, base, ws, 0);
    assert HoldsWord(mem', base, ws, 0) && HoldsWord(mem', base, ws, 1) && HoldsWord(mem', base, ws, 2)
        && HoldsWord(mem', base, ws, 3) && HoldsWord(mem', base, ws, 4) && HoldsWord(mem', base, ws, 5)
        && HoldsWord(mem', base, ws, 6) && HoldsWord(mem', base, ws, 7);
    FrameStaysInside(mem, base, ws);
  }

  lemma FrameStaysInside(mem: map<u32, u32>, base: u32, ws: seq<u32>)
    requires |ws| == 8
    ensures SameOutside(mem, WithFrame(mem, base, ws, 0), base)
  {
    forall a: u32 | Sub32(a, base) >= 0x20
      ensures SameWord(mem, WithFrame(mem, base, ws, 0), a)
    {
      OtherWordsKept(mem, base, ws, 0, a);
    }
  }

  /** An accepted call that switches stacks starts with its own frame just below the stack pointer, and the rest
      of memory as before; otherwise all of it is as before. */
  ghost predicate FrameReady(c: Core, r: SfnReq, s: Status, mem: map<u32, u32>, mem': map<u32, u32>, psp: u32,
                             returnSvc: u32)
  {
    if s == Success && r.SfnReq? && SwitchesStack(c, r)
    then Framed(mem, mem', Sub32(psp, 0x20), r, returnSvc)
    else mem' == mem
  }

  /** The next entry of the list is new to the rows declared so far. */
  lemma NextDeclared(level: Level, stackMem: u32, stackTop: u32, decls: seq<PartitionDecl>, k: nat)
    requires DistinctDecls(decls) && k < |decls|
    ensures var rows := InitialRows(level, stackMem, stackTop, decls);
            && rows[..k + 3] == rows[..k + 2] + [DeclaredRow(level, decls[k])]
            && forall i :: 0 <= i < k + 2 ==> rows[i].id != decls[k].id
  {
    var rows := InitialRows(level, stackMem, stackTop, decls);
    assert rows[k + 2] == DeclaredRow(level, decls[k]);
    forall i | 0 <= i < k + 2
      ensures rows[i].id != decls[k].id
    {
      if i >= 2 {
        assert rows[i] == DeclaredRow(level, decls[i - 2]);
      }
    }
  }

  lemma AssembleSwitched(c: Core, r: SfnReq, callee: u32, c': Core)
    requires r.SfnReq? && c.running < |c.rows| && callee < |c.rows|
    requires c'.rows == PushRows(c, r, callee) && c'.running == callee && c'.lock == c.lock + 1
    requires c'.hwShare == (if c.platform.level == Level3 then RequestShare(r) else c.hwShare)
    requires c'.psp == (if SwitchesStack(c, r) then Sub32(PartitionPsp(c, callee), SVC_STACK_FRAME_SIZE) else c.psp)
    requires c'.psplim == (if SwitchesStack(c, r) then PartitionPsplim(c, callee) else c.psplim)
    requires c'.unprivileged == c.unprivileged && c'.platform == c.platform && c'.initPhase == c.initPhase
    requires c'.aircr == c.aircr && c'.savedAircr == c.savedAircr
    ensures c' == Switched(c, r, callee)
  {
  }

  /** A request that may be made of `c`. */
  predicate Askable(c: Core, r: SfnReq) {
    WellIndexed(c) && (r.SfnReq? ==> Registered(c, r.spId))
  }

  /** What `tfm_core_sfn_request_function` answers to the state `c`, and the state it leaves. */
  predicate Answered(c: Core, r: SfnReq, s: Status, c': Core)
    requires Askable(c, r)
  {
    s == Admission(c, r) && c' == if s == Success then Entered(c, r) else c
  }

  /** The same with the exception stacking around it. */
  predicate Stacked(c: Core, r: SfnReq, s: Status, c': Core)
    requires Askable(c, r)
  {
    s == Admission(c, r) && c' == if s == Success then Called(c, r) else c
  }

  lemma ArrivedIs(c: Core, r: SfnReq, arrived: Core)
    requires Askable(c, r)
    requires arrived == c.(psp := if ViaSvc(c, r) then Sub32(c.psp, SVC_STACK_FRAME_SIZE) else c.psp)
    ensures arrived == Arrived(c, r) && Askable(arrived, r)
    ensures r.SfnReq? ==> SwitchesStack(arrived, r) == SwitchesStack(c, r)
  {
  }

  /** The exception return that ends a request: into the callee, or back to a refused caller. */
  lemma StackedIs(c: Core, r: SfnReq, s: Status, arrived: Core, entered: Core, leaves: bool, c': Core)
    requires Askable(c, r) && arrived == Arrived(c, r) && Askable(arrived, r) && Answered(arrived, r, s, entered)
    requires leaves == (if s == Success then r.SfnReq? && SwitchesStack(c, r) else ViaSvc(c, r))
    requires c' == entered.(psp := if leaves then Add32(entered.psp, SVC_STACK_FRAME_SIZE) else entered.psp)
    ensures Stacked(c, r, s, c')
  {
    AdmissionOnArrival(c, r);
  }

  lemma AdmissionOnArrival(c: Core, r: SfnReq)
    requires Askable(c, r) && Askable(Arrived(c, r), r)
    ensures Admission(Arrived(c, r), r) == Admission(c, r)
  {
  }

  lemma RequestStep(m: Machine, r: SfnReq, s: Status, c': Core)
    requires Askable(m.core, r) && Stacked(m.core, r, s, c') && m.halt == NotHalted
    ensures WellIndexed(c')
    ensures Step(m, Action.Request(r)) ==
            m.(core := c', frames := if s == Success then m.frames + [FrameOf(m.core, r)] else m.frames)
  {
  }

  lemma SettingKept(c: Core, r: SfnReq, c': Core)
    requires Askable(c, r) && Stacked(c, r, Success, c')
    ensures var inThread := c'.platform.level == Level3 || c'.initPhase;
            FrameOf(c, r).act == Activation(r.nsCaller, !inThread && r.excNum == EXC_NUM_THREAD_MODE,
                                            inThread && r.excNum == EXC_NUM_THREAD_MODE)
  {
    assert SameSetting(c, c');
  }

  /** What the return path answers to the state `c`, and the state it leaves. */
  predicate Popped(c: Core, act: Activation, retVal: int, lr: u32, why: Halt, c': Core)
    requires WellIndexed(c)
  {
    var o := Returned(c, act, retVal, lr);
    c' == o.core && why == if o.Back? then NotHalted else HaltedBy(o.reason)
  }

  lemma ReturnedStep(m: Machine, retVal: int, lr: u32, why: Halt, c': Core)
    requires WellIndexed(m.core) && m.halt == NotHalted && m.frames != []
    requires Popped(m.core, Top(m).act, retVal, lr, why, c')
    ensures WellIndexed(c')
    ensures Step(m, Action.Return(retVal, lr)) ==
            m.(core := c', halt := why, frames := if why == NotHalted then Below(m) else m.frames)
  {
  }

  /** Lock, privilege and share mode have no part in what the pop restores. */
  lemma LeftEnvironment(c: Core, c': Core)
    requires WellIndexed(c) && PopCheck(c) == Success
    requires c' == c.(lock := c'.lock, unprivileged := c'.unprivileged, hwShare := c'.hwShare)
    ensures WellIndexed(c') && PopCheck(c') == Success
    ensures PopCleaned(c') == PopCleaned(c) && RestoresContext(c') == RestoresContext(c)
    ensures forall lr :: PoppedLr(c', lr) == PoppedLr(c, lr)
  {
  }

  lemma AssemblePop(c: Core, c': Core)
    requires WellIndexed(c) && PopCheck(c) == Success
    requires var cur := c.running; var ret := c.rows[cur].caller;
      && c'.rows == PopRows(c) && c'.running == ret && c'.lock == c.lock - 1
      && c'.unprivileged == (c.unprivileged && !(c.platform.level == Level3 && c.initPhase && !c.rows[cur].trusted))
      && c'.hwShare == (if c.platform.level == Level3 && !c.initPhase && c.rows[ret].secure
                        then c.rows[ret].share else c.hwShare)
      && c'.psp == (if RestoresContext(c) then c.rows[cur].origPsp else c.psp)
      && c'.psplim == (if RestoresContext(c) then c.rows[cur].origPsplim else c.psplim)
    requires c'.platform == c.platform && c'.initPhase == c.initPhase
    requires c'.aircr == c.aircr && c'.savedAircr == c.savedAircr
    ensures c' == CallMachine.PopLock(c)
  {
  }

  class Spm {
    const platform: Platform
    const returnSvc: u32
    /** The registered rows; at most `MAX_PARTITIONS` of them. */
    var partitions: seq<Row>
    var runningPartitionIdx: u32
    var secureLock: int
    var secureApiInit: bool
    var psp: u32
    var psplim: u32
    var unprivileged: bool
    var hwShare: Share
    var aircr: bv32
    var nsState: bv32
    var memory: map<u32, u32>
    /** The request functions suspended on the main stack. */
    var activations: seq<Activation>
    var halt: Halt
    /** The same, with the state each request found. */
    ghost var frames: seq<Frame>

    ghost function View(): Core
      reads this
    {
      Core(platform, partitions, runningPartitionIdx, secureLock, secureApiInit,
           psp, psplim, unprivileged, hwShare, aircr, nsState)
    }

    /** The suspended requests are the ones the frames record. */
    ghost predicate Matched()
      reads this`activations, this`frames
    {
      |activations| == |frames| && forall k :: 0 <= k < |frames| ==> frames[k].act == activations[k]
    }

    ghost predicate Valid()
      reads this
    {
      WellIndexed(View()) && Matched()
    }

    ghost function Abstract(): Machine
      reads this
    {
      Machine(View(), frames, halt)
    }

    method GetPartitionIdx(id: u32) returns (idx: u32)
      requires |partitions| <= MAX_PARTITIONS
      ensures idx == PartitionIdx(View().rows, id)
    {
      if id == INVALID_PARTITION_ID {
        return INVALID_PARTITION_IDX;
      }
      var i := 0;
      while i < |partitions|
        invariant i <= |partitions|
        invariant FirstWithId(View().rows, id, 0) == FirstWithId(View().rows, id, i)
      {
        if partitions[i].id == id {
          return i;
        }
        i := i + 1;
      }
      return INVALID_PARTITION_IDX;
    }

    // ---- Setters of the database

    method SetState(i: nat, state: PartitionState)
      requires i < |partitions| <= MAX_PARTITIONS
      modifies this`runningPartitionIdx, this`partitions
      ensures partitions == old(partitions)[i := old(partitions)[i].(state := state)]
      ensures runningPartitionIdx == if state == Running then i else old(runningPartitionIdx)
    {
      partitions := partitions[i := partitions[i].(state := state)];
      if state == Running {
        runningPartitionIdx := i;
      }
    }

    method SetStack(i: nat, stackPtr: u32)
      requires i < |partitions| <= MAX_PARTITIONS
      modifies this`partitions
      ensures partitions == old(partitions)[i := old(partitions)[i].(stackPtr := stackPtr)]
    {
      partitions := partitions[i := partitions[i].(stackPtr := stackPtr)];
    }

    method SetCaller(i: nat, caller: u32)
      requires i < |partitions| <= MAX_PARTITIONS
      modifies this`partitions
      ensures partitions == old(partitions)[i := old(partitions)[i].(caller := caller)]
    {
      partitions := partitions[i := partitions[i].(caller := caller)];
    }

    method SetOrigContext(i: nat, origPsp: u32, origPsplim: u32, origLr: u32)
      requires i < |partitions| <= MAX_PARTITIONS
      modifies this`partitions
      ensures partitions == old(partitions)[i :=
                old(partitions)[i].(origPsp := origPsp, origPsplim := origPsplim, origLr := origLr)]
    {
      partitions := partitions[i := partitions[i].(origPsp := origPsp)];
      partitions := partitions[i := partitions[i].(origPsplim := origPsplim)];
      partitions := partitions[i := partitions[i].(origLr := origLr)];
    }

    method SetShare(i: nat, share: Share)
      requires i < |partitions| <= MAX_PARTITIONS
      modifies this`hwShare, this`partitions
      ensures partitions == old(partitions)[i := old(partitions)[i].(share := share)]
      ensures hwShare == if platform.level == Level3 then share else old(hwShare)
    {
      if platform.level == Level3 {
        hwShare := share;
      }
      partitions := partitions[i := partitions[i].(share := share)];
    }

    method CleanupContext(i: nat)
      requires i < |partitions| <= MAX_PARTITIONS
      modifies this`partitions
      ensures partitions == old(partitions)[i := old(partitions)[i].(
                caller := INVALID_PARTITION_IDX, origPsp := 0, origPsplim := 0, origLr := 0, share := Disable)]
    {
      partitions := partitions[i := partitions[i].(caller := INVALID_PARTITION_IDX)];
      partitions := partitions[i := partitions[i].(origPsp := 0)];
      partitions := partitions[i := partitions[i].(origPsplim := 0)];
      partitions := partitions[i := partitions[i].(origLr := 0)];
      partitions := partitions[i := partitions[i].(share := Disable)];
    }

    // ---- Context frame, push and pop

    method PreparePartitionCtx(r: SfnReq, top: u32) returns (dst: u32)
      requires r.SfnReq?
      modifies this`memory
      ensures dst == Sub32(top, SVC_STACK_FRAME_SIZE)
      ensures Framed(old(memory), memory, dst, r, returnSvc)
    {
      ghost var base := Sub32(top, SVC_STACK_FRAME_SIZE);
      ghost var ws := FrameWords(r, returnSvc);
      dst := Sub32(top, 4);
      memory := memory[dst := XPSR_THUMB];
      assert memory == WithFrame(old(memory), base, ws, 7);
      dst := Sub32(dst, 4);
      memory := memory[dst := r.sfn];
      assert memory == WithFrame(old(memory), base, ws, 6);
      dst := Sub32(dst, 4);
      memory := memory[dst := returnSvc];
      assert memory == WithFrame(old(memory), base, ws, 5);
      dst := Sub32(dst, 4);
      memory := memory[dst := 0];
      var i := 4;
      while i > 0
        invariant 0 <= i <= 4
        invariant dst == WordAddr(base, i)
        invariant memory == WithFrame(old(memory), base, ws, i)
      {
        i := i - 1;
        dst := Sub32(dst, 4);
        memory := memory[dst := r.args[i]];
      }
      FrameUnstacks(old(memory), base, r, returnSvc);
    }

    /** The tests of `tfm_push_lock`. */
    method CheckPush(r: SfnReq) returns (s: Status, callee: u32)
      requires WellIndexed(View()) && r.SfnReq? && Registered(View(), r.spId)
      modifies this`unprivileged
      ensures s == PushCheck(old(View()), r)
      ensures s == Success ==>
                callee == PartitionIdx(old(View()).rows, r.spId) && View() == InitPrivilege(old(View()), callee)
      ensures s != Success ==> View() == old(View())
    {
      callee := INVALID_PARTITION_IDX;
      var caller := runningPartitionIdx;
      if caller == INVALID_PARTITION_IDX {
        return LockFailed, callee;
      }
      if partitions[caller].secure != !r.nsCaller {
        return LockFailed, callee;
      }
      callee := GetPartitionIdx(r.spId);
      var state := partitions[callee].state;
      if secureApiInit && partitions[caller].id == CORE_ID && state == Uninit {
        if platform.level == Level3 && !partitions[callee].trusted {
          unprivileged := true;
        }
      } else if state == Running || state == Suspended || state == Blocked {
        return NonReentrant, callee;
      } else if state != Idle {
        return LockFailed, callee;
      }
      return Success, callee;
    }

    /** Stacks the context of the call in the callee's row. */
    method RecordCall(r: SfnReq, lr: u32, callee: u32) returns (partitionPsp: u32, partitionPsplim: u32)
      requires r.SfnReq? && runningPartitionIdx < |partitions| && callee < |partitions| <= MAX_PARTITIONS
      requires lr == platform.returnLr
      modifies this`hwShare, this`partitions
      ensures partitionPsp == PartitionPsp(old(View()), callee)
      ensures partitionPsplim == PartitionPsplim(old(View()), callee)
      ensures partitions == CallRecorded(old(View()), r, callee)
      ensures hwShare == if platform.level == Level3 then RequestShare(r) else old(hwShare)
    {
      ghost var c := View();
      var caller := runningPartitionIdx;
      partitionPsp, partitionPsplim := platform.secureStackLimit, platform.secureStackBase;
      if platform.level == Level3 {
        if partitions[caller].secure {
          SetStack(caller, psp);
        }
        partitionPsp := partitions[callee].stackPtr;
        partitionPsplim := partitions[callee].stackBottom;
      }
      assert View().rows == CallerSaved(c);
      SetOrigContext(callee, psp, psplim, lr);
      SetCaller(callee, caller);
      SetShare(callee, if r.nsCaller then NsCode else Scratch);
      assert View().rows == CallRecorded(c, r, callee);
    }

    /** The context switch of an accepted call: frame, stack registers, states, lock. */
    method SwitchTo(r: SfnReq, lr: u32, callee: u32)
      requires r.SfnReq? && lr == platform.returnLr
      requires runningPartitionIdx < |partitions| <= MAX_PARTITIONS && callee < |partitions|
      modifies this`runningPartitionIdx, this`secureLock, this`psp, this`psplim, this`hwShare, this`memory, this`partitions
      ensures partitions == PushRows(old(View()), r, callee)
      ensures runningPartitionIdx == callee && secureLock == old(secureLock) + 1
      ensures hwShare == if platform.level == Level3 then RequestShare(r) else old(hwShare)
      ensures if SwitchesStack(old(View()), r) then
                && psp == Sub32(PartitionPsp(old(View()), callee), SVC_STACK_FRAME_SIZE)
                && psplim == PartitionPsplim(old(View()), callee)
                && Framed(old(memory), memory, psp, r, returnSvc)
              else psp == old(psp) && psplim == old(psplim) && memory == old(memory)
    {
      var caller := runningPartitionIdx;
      var partitionPsp, partitionPsplim := RecordCall(r, lr, callee);
      if platform.level == Level3 || r.excNum != EXC_NUM_THREAD_MODE || secureApiInit {
        SwitchStack(r, partitionPsp, partitionPsplim);
      }
      TakeLock(caller, callee);
    }

    method SwitchStack(r: SfnReq, top: u32, limit: u32)
      requires r.SfnReq?
      modifies this`psp, this`psplim, this`memory
      ensures psp == Sub32(top, SVC_STACK_FRAME_SIZE) && psplim == limit
      ensures Framed(old(memory), memory, psp, r, returnSvc)
    {
      var sp := PreparePartitionCtx(r, top);
      psp := sp;
      psplim := limit;
    }

    method TakeLock(caller: u32, callee: u32)
      requires caller < |partitions| <= MAX_PARTITIONS && callee < |partitions|
      modifies this`runningPartitionIdx, this`secureLock, this`partitions
      ensures partitions == var blocked := old(partitions)[caller := old(partitions)[caller].(state := Blocked)];
                            blocked[callee := blocked[callee].(state := Running)]
      ensures runningPartitionIdx == callee && secureLock == old(secureLock) + 1
    {
      SetState(caller, Blocked);
      SetState(callee, Running);
      secureLock := secureLock + 1;
    }

    method SwitchCall(r: SfnReq, lr: u32, callee: u32)
      requires r.SfnReq? && lr == platform.returnLr
      requires runningPartitionIdx < |partitions| <= MAX_PARTITIONS && callee < |partitions|
      modifies this`runningPartitionIdx, this`secureLock, this`psp, this`psplim, this`hwShare, this`memory, this`partitions
      ensures View() == Switched(old(View()), r, callee)
      ensures if SwitchesStack(old(View()), r) then Framed(old(memory), memory, psp, r, returnSvc)
              else memory == old(memory)
    {
      ghost var c := View();
      SwitchTo(r, lr, callee);
      AssembleSwitched(c, r, callee, View());
    }

    method PushLock(r: SfnReq, lr: u32) returns (s: Status)
      requires WellIndexed(View()) && r.SfnReq? && Registered(View(), r.spId) && lr == platform.returnLr
      modifies this`runningPartitionIdx, this`secureLock, this`psp, this`psplim, this`unprivileged, this`hwShare,
               this`memory, this`partitions
      ensures s == PushCheck(old(View()), r)
      ensures View() == if s == Success then CallMachine.PushLock(old(View()), r) else old(View())
      ensures if s == Success && SwitchesStack(old(View()), r) then Framed(old(memory), memory, psp, r, returnSvc)
              else memory == old(memory)
    {
      var callee;
      s, callee := CheckPush(r);
      if s == Success {
        SwitchCall(r, lr, callee);
      }
    }

    /** Keeps the callee's stack, gives the caller its context back and clears the callee's row. */
    method RestoreContext(lr: u32) returns (lrOut: u32)
      requires WellIndexed(View()) && PopCheck(View()) == Success
      modifies this`psp, this`psplim, this`runningPartitionIdx, this`partitions
      ensures lrOut == PoppedLr(old(View()), lr)
      ensures partitions == PopCleaned(old(View())) && runningPartitionIdx == old(runningPartitionIdx)
      ensures psp == if RestoresContext(old(View())) then old(partitions[runningPartitionIdx].origPsp) else old(psp)
      ensures psplim == if RestoresContext(old(View())) then old(partitions[runningPartitionIdx].origPsplim) else old(psplim)
    {
      ghost var c := View();
      lrOut := lr;
      var cur := runningPartitionIdx;
      var ret := partitions[cur].caller;
      if platform.level == Level3 || !partitions[ret].secure || secureApiInit {
        if platform.level == Level3 {
          SetStack(cur, Add32(psp, SVC_STACK_FRAME_SIZE));
        }
        psp := partitions[cur].origPsp;
        psplim := partitions[cur].origPsplim;
        lrOut := partitions[cur].origLr;
      }
      ClearCall(cur);
      assert View().rows == PopCleaned(c);
    }

    method ClearCall(cur: u32)
      requires cur < |partitions| <= MAX_PARTITIONS
      modifies this`runningPartitionIdx, this`partitions
      ensures partitions == old(partitions)[cur := old(partitions)[cur].(caller := INVALID_PARTITION_IDX,
                origPsp := 0, origPsplim := 0, origLr := 0, share := Disable, state := Idle)]
      ensures runningPartitionIdx == old(runningPartitionIdx)
    {
      CleanupContext(cur);
      SetState(cur, Idle);
      SetCaller(cur, INVALID_PARTITION_IDX);
    }

    /** Leaves the callee's environment: privilege during boot, the caller's share mode after it. */
    method LeaveEnvironment(cur: u32, ret: u32)
      requires cur < |partitions| && ret < |partitions| <= MAX_PARTITIONS
      modifies this`unprivileged, this`hwShare, this`partitions
      ensures partitions == old(partitions)
      ensures unprivileged ==
              (old(unprivileged) && !(platform.level == Level3 && secureApiInit && !partitions[cur].trusted))
      ensures hwShare == if platform.level == Level3 && !secureApiInit && partitions[ret].secure
                         then partitions[ret].share else old(hwShare)
    {
      if platform.level == Level3 {
        if secureApiInit {
          if !partitions[cur].trusted {
            unprivileged := false;
          }
        } else if partitions[ret].secure {
          SetShare(ret, partitions[ret].share);
        }
      }
    }

    method PopLock(lr: u32) returns (s: Status, lrOut: u32)
      requires WellIndexed(View())
      modifies this`runningPartitionIdx, this`secureLock, this`psp, this`psplim, this`unprivileged, this`hwShare,
               this`partitions
      ensures s == PopCheck(old(View()))
      ensures s != Success ==> View() == old(View()) && lrOut == lr
      ensures s == Success ==> View() == CallMachine.PopLock(old(View())) && lrOut == PoppedLr(old(View()), lr)
    {
      lrOut := lr;
      var cur := runningPartitionIdx;
      if cur == INVALID_PARTITION_IDX {
        return UnlockFailed, lrOut;
      }
      var ret := partitions[cur].caller;
      if ret == INVALID_PARTITION_IDX {
        return UnlockFailed, lrOut;
      }
      s := Success;
      lrOut := UndoCall(cur, ret, lr);
    }

    /** Releases the lock once and goes back to the caller. */
    method UndoCall(cur: u32, ret: u32, lr: u32) returns (lrOut: u32)
      requires WellIndexed(View()) && PopCheck(View()) == Success
      requires cur == runningPartitionIdx && ret == partitions[cur].caller
      modifies this`runningPartitionIdx, this`secureLock, this`psp, this`psplim, this`unprivileged, this`hwShare,
               this`partitions
      ensures View() == CallMachine.PopLock(old(View())) && lrOut == PoppedLr(old(View()), lr)
    {
      ghost var c := View();
      ReleaseLock(cur, ret);
      LeftEnvironment(c, View());
      lrOut := RestoreContext(lr);
      SetState(ret, Running);
      AssemblePop(c, View());
    }

    method ReleaseLock(cur: u32, ret: u32)
      requires cur < |partitions| && ret < |partitions| <= MAX_PARTITIONS
      modifies this`secureLock, this`unprivileged, this`hwShare, this`partitions
      ensures View() == old(View()).(lock := old(secureLock) - 1, unprivileged := unprivileged, hwShare := hwShare)
      ensures unprivileged ==
              (old(unprivileged) && !(platform.level == Level3 && secureApiInit && !partitions[cur].trusted))
      ensures hwShare == if platform.level == Level3 && !secureApiInit && partitions[ret].secure
                         then partitions[ret].share else old(hwShare)
    {
      secureLock := secureLock - 1;
      LeaveEnvironment(cur, ret);
    }

    method SetBufferArea(arg: u32) returns (s: Status)
      requires WellIndexed(View()) && runningPartitionIdx < |partitions|
      modifies this`hwShare, this`partitions
      ensures (View(), s) == CallMachine.SetBufferArea(old(View()), arg)
      ensures s == if old(partitions[runningPartitionIdx]).secure && (arg == 1 || arg == 2 || arg == 4)
                   then Success else InvalidParameter
      ensures s == Success ==>
                partitions[runningPartitionIdx].share ==
                if arg == 1 || (arg == 4 && !CallerSecure(old(View()))) then NsCode else Scratch
    {
      var caller := partitions[runningPartitionIdx].caller;
      if !partitions[runningPartitionIdx].secure {
        return InvalidParameter;
      }
      var share;
      if arg == BUFFER_SHARE_DEFAULT {
        share := if caller == INVALID_PARTITION_IDX || !partitions[caller].secure then NsCode else Scratch;
      } else if arg == BUFFER_SHARE_SCRATCH {
        share := Scratch;
      } else if arg == BUFFER_SHARE_NS_CODE {
        share := NsCode;
      } else {
        return InvalidParameter;
      }
      SetShare(runningPartitionIdx, share);
      s := Success;
    }

    // ---- Requests and returns

    method CheckRules(r: SfnReq) returns (s: Status)
      requires r.SfnReq?
      ensures s == RulesCheck(View(), r)
    {
      if r.excNum != EXC_NUM_THREAD_MODE && r.excNum != EXC_NUM_SVCALL {
        return InvalidExcMode;
      }
      if r.nsCaller {
        if r.excNum == EXC_NUM_THREAD_MODE {
          return NsThreadModeCall;
        }
        if secureLock != 0 {
          return SecureDomainLocked;
        }
      } else if r.excNum != EXC_NUM_THREAD_MODE {
        return InvalidExcMode;
      }
      return Success;
    }

    method ConfigureException()
      modifies this`aircr, this`nsState
      ensures View() == ConfigureSecureException(old(View()))
    {
      nsState := aircr;
      aircr := ConfiguredAircr(nsState);
    }

    method DeconfigureException()
      modifies this`aircr
      ensures View() == DeconfigureSecureException(old(View()))
    {
      aircr := DeconfiguredAircr(aircr, nsState);
    }

    /** `tfm_core_sfn_request_function` up to the exception return into the secure function. */
    method RequestFunction(r: SfnReq) returns (s: Status)
      requires Askable(View(), r)
      modifies this`runningPartitionIdx, this`secureLock, this`psp, this`psplim, this`unprivileged, this`hwShare,
               this`memory, this`partitions, this`aircr, this`nsState
      ensures Answered(old(View()), r, s, View())
      ensures if s == Success && SwitchesStack(old(View()), r) then Framed(old(memory), memory, psp, r, returnSvc)
              else memory == old(memory)
    {
      s := IntegrityCheck(r);
      if s == Success {
        s := CheckRules(r);
        if s == Success {
          s := PushLock(r, platform.returnLr);
          if s == Success && r.nsCaller {
            ConfigureException();
          }
        }
      }
    }

    method SetPsp(sp: u32)
      modifies this`psp
      ensures psp == sp && View() == old(View()).(psp := sp)
    {
      psp := sp;
    }

    method EnterException()
      modifies this`psp
      ensures View() == EnterSvc(old(View()))
    {
      psp := Sub32(psp, SVC_STACK_FRAME_SIZE);
    }

    method LeaveException()
      modifies this`psp
      ensures View() == LeaveSvc(old(View()))
    {
      psp := Add32(psp, SVC_STACK_FRAME_SIZE);
    }

    /** The processor's part: exception entry before the request, exception return after it. `base` is where the
        frame of an accepted call that switches stacks was built. */
    method StackedRequest(r: SfnReq) returns (s: Status, ghost base: u32)
      requires Askable(View(), r)
      modifies this`runningPartitionIdx, this`secureLock, this`psp, this`psplim, this`unprivileged, this`hwShare,
               this`memory, this`partitions, this`aircr, this`nsState
      ensures Stacked(old(View()), r, s, View())
      ensures if s == Success && SwitchesStack(old(View()), r)
              then Framed(old(memory), memory, base, r, returnSvc) && psp == Add32(base, 0x20)
              else memory == old(memory)
    {
      ghost var c := View();
      var inThread := r.SfnReq? && r.excNum == EXC_NUM_THREAD_MODE;
      var viaSvc := inThread && (platform.level == Level3 || secureApiInit);
      var switches := r.SfnReq? && (viaSvc || !inThread);
      assert viaSvc == ViaSvc(c, r) && switches == (r.SfnReq? && SwitchesStack(c, r));
      SetPsp(if viaSvc then Sub32(psp, SVC_STACK_FRAME_SIZE) else psp);
      ghost var arrived := View();
      ArrivedIs(c, r, arrived);
      s := RequestFunction(r);
      base := psp;
      ghost var entered := View();
      var leaves := if s == Success then switches else viaSvc;
      SetPsp(if leaves then Add32(psp, SVC_STACK_FRAME_SIZE) else psp);
      StackedIs(c, r, s, arrived, entered, leaves, View());
    }

    method FramedRequest(r: SfnReq) returns (s: Status)
      requires Askable(View(), r)
      modifies this`runningPartitionIdx, this`secureLock, this`psp, this`psplim, this`unprivileged, this`hwShare,
               this`memory, this`partitions, this`aircr, this`nsState
      ensures Stacked(old(View()), r, s, View())
      ensures FrameReady(old(View()), r, s, old(memory), memory, psp, returnSvc)
    {
      ghost var c, mem := View(), memory;
      ghost var base;
      s, base := StackedRequest(r);
      if s == Success && SwitchesStack(c, r) {
        assert Sub32(psp, 0x20) == base;
      }
    }

    /** A secure function request; an accepted one leaves its activation on the main stack. */
    method Request(r: SfnReq) returns (s: Status)
      requires Matched() && halt == NotHalted && Askable(View(), r)
      modifies this`runningPartitionIdx, this`secureLock, this`psp, this`psplim, this`unprivileged, this`hwShare,
               this`memory, this`partitions, this`aircr, this`nsState, this`activations, this`frames
      ensures Valid() && s == Admission(old(View()), r)
      ensures Abstract() == Step(old(Abstract()), Action.Request(r))
      ensures FrameReady(old(View()), r, s, old(memory), memory, psp, returnSvc)
    {
      ghost var m := Abstract();
      s := FramedRequest(r);
      NoteRequest(r, s, m);
    }

    /** Keeps the activation of an accepted request. */
    method NoteRequest(r: SfnReq, s: Status, ghost m: Machine)
      requires Matched() && frames == m.frames && halt == m.halt == NotHalted
      requires Askable(m.core, r) && Stacked(m.core, r, s, View())
      modifies this`activations, this`frames
      ensures Valid() && Abstract() == Step(m, Action.Request(r)) && s == Admission(m.core, r)
    {
      RequestStep(m, r, s, View());
      if s == Success {
        var inThread := platform.level == Level3 || secureApiInit;
        SettingKept(m.core, r, View());
        Suspend(Activation(r.nsCaller, !inThread && r.excNum == EXC_NUM_THREAD_MODE,
                           inThread && r.excNum == EXC_NUM_THREAD_MODE), FrameOf(m.core, r));
      }
    }

    method Suspend(act: Activation, ghost f: Frame)
      requires Matched() && f.act == act
      modifies this`activations, this`frames
      ensures Matched() && frames == old(frames) + [f] && View() == old(View())
    {
      frames := frames + [f];
      activations := activations + [act];
    }

    method Resume()
      requires Matched() && activations != []
      modifies this`activations, this`frames
      ensures Matched() && frames == old(frames)[..|old(frames)| - 1] && View() == old(View())
    {
      frames := frames[..|frames| - 1];
      activations := activations[..|activations| - 1];
    }

    method Stop(why: Halt)
      modifies this`halt
      ensures halt == why && View() == old(View())
    {
      halt := why;
    }

    /** The request function's epilogue and the exception return of the caller's SVC. */
    method FinishRequest(act: Activation)
      modifies this`psp, this`aircr
      ensures View() ==
              var c := if act.nsCaller then DeconfigureSecureException(old(View())) else old(View());
              if act.viaSvc then LeaveSvc(c) else c
    {
      if act.nsCaller {
        DeconfigureException();
      }
      if act.viaSvc {
        LeaveException();
      }
    }

    /** The return SVC handler, or the direct return of a level 1 call, and the request function's epilogue. */
    method ReturnFrom(act: Activation, retVal: int, lr: u32) returns (why: Halt)
      requires WellIndexed(View())
      modifies this`runningPartitionIdx, this`secureLock, this`psp, this`psplim, this`unprivileged, this`hwShare,
               this`aircr, this`partitions
      ensures Popped(old(View()), act, retVal, lr, why, View())
      ensures why == HaltedBy(ReservedReturn) <==> !act.direct && 1 <= retVal <= 0x1F && retVal != 2
    {
      if !act.direct {
        EnterException();
        if retVal != 0 && retVal != TFM_PARTITION_BUSY && 0 < retVal < TFM_PARTITION_SPECIFIC_ERROR_MIN {
          return HaltedBy(ReservedReturn);
        }
      }
      var s, lrOut := PopLock(lr);
      if s != Success {
        return HaltedBy(UnlockError);
      }
      if !act.direct && lrOut != platform.returnLr {
        return HaltedBy(LrMismatch);
      }
      FinishRequest(act);
      return NotHalted;
    }

    method Return(retVal: int, lr: u32)
      requires Valid() && halt == NotHalted && activations != []
      modifies this
      ensures Valid()
      ensures Abstract() == Step(old(Abstract()), Action.Return(retVal, lr)) && memory == old(memory)
      ensures halt == HaltedBy(ReservedReturn) <==>
              !old(activations[|activations| - 1]).direct && 1 <= retVal <= 0x1F && retVal != 2
    {
      ghost var m := Abstract();
      var top := activations[|activations| - 1];
      assert top == Top(m).act;
      var why := ReturnFrom(top, retVal, lr);
      ReturnedStep(m, retVal, lr, why, View());
      Settle(why);
    }

    /** The request is done, or the system stays where the return halted it. */
    method Settle(why: Halt)
      requires Matched() && activations != [] && halt == NotHalted
      modifies this`activations, this`frames, this`halt
      ensures Matched() && halt == why && View() == old(View())
      ensures frames == if why == NotHalted then old(frames)[..|old(frames)| - 1] else old(frames)
    {
      if why == NotHalted {
        Resume();
      } else {
        Stop(why);
      }
    }

    /** One action of the code on the processor. */
    method Perform(a: Action)
      requires Valid()
      modifies this
      ensures Valid() && Abstract() == Step(old(Abstract()), a)
    {
      if halt != NotHalted {
        return;
      }
      match a
      case Request(r) =>
        if r.SfnReq? {
          var idx := GetPartitionIdx(r.spId);
          if idx == INVALID_PARTITION_IDX {
            return;
          }
        }
        var _ := Request(r);
      case Return(retVal, lr) =>
        if activations != [] {
          Return(retVal, lr);
        }
      case SetBuffer(arg) =>
        if activations != [] && runningPartitionIdx < |partitions| {
          SetBuffer(arg);
        }
      case MoveStack(sp) =>
        if activations != [] {
          SetPsp(sp);
        }
    }

    /** The set-buffer SVC of the running secure function. */
    method SetBuffer(arg: u32)
      requires WellIndexed(View()) && runningPartitionIdx < |partitions|
      modifies this`psp, this`hwShare, this`partitions
      ensures View() == LeaveSvc(CallMachine.SetBufferArea(EnterSvc(old(View())), arg).0) && WellIndexed(View())
    {
      EnterException();
      var _ := SetBufferArea(arg);
      LeaveException();
    }

    method PerformAll(actions: seq<Action>)
      requires Valid()
      modifies this
      ensures Valid() && Abstract() == Run(old(Abstract()), actions)
    {
      var i := 0;
      while i < |actions|
        invariant 0 <= i <= |actions| && Valid()
        invariant Run(Abstract(), actions[i..]) == Run(old(Abstract()), actions)
      {
        Perform(actions[i]);
        i := i + 1;
      }
    }

    // ---- Boot

    /** PARTITION_DECLARE and PARTITION_ADD_INIT_FUNC for one entry of the partition list. */
    method DeclarePartition(d: PartitionDecl) returns (ok: bool)
      requires |partitions| <= MAX_PARTITIONS && d.id != INVALID_PARTITION_ID
      requires forall i :: 0 <= i < |partitions| ==> partitions[i].id != d.id
      modifies this`partitions
      ensures ok <==> old(|partitions|) < MAX_PARTITIONS
      ensures partitions == if ok then old(partitions) + [DeclaredRow(platform.level, d)] else old(partitions)
      ensures ok ==> Declares(platform.level, d, partitions[|old(partitions)|])
    {
      if |partitions| >= MAX_PARTITIONS {
        return false;
      }
      var row := ZERO_ROW.(id := d.id, secure := d.secure, trusted := d.trusted);
      if platform.level == Level3 {
        row := row.(stackPtr := d.stackTop);
        row := row.(stackBottom := d.stackBottom, stackTop := d.stackTop);
      }
      partitions := partitions + [row];
      if d.init != 0 {
        var idx := GetPartitionIdx(d.id);
        assert partitions[|partitions| - 1].id == d.id;
        PartitionIdxExact(partitions, d.id);
        partitions := partitions[idx := partitions[idx].(init := d.init)];
      }
      return true;
    }

    /** `tfm_spm_db_init`: the two internal partitions, then the list. */
    method DbInit(stackMem: u32, stackTop: u32, decls: seq<PartitionDecl>) returns (ok: bool)
      requires DistinctDecls(decls)
      modifies this`partitions, this`runningPartitionIdx
      ensures ok <==> |decls| <= 6
      ensures ok ==> partitions == InitialRows(platform.level, stackMem, stackTop, decls)
      ensures ok ==> AsDeclared(platform.level, partitions, stackMem, stackTop, decls)
      ensures runningPartitionIdx == INVALID_PARTITION_IDX
    {
      partitions := [];
      runningPartitionIdx := INVALID_PARTITION_IDX;
      var ns := ZERO_ROW.(id := NON_SECURE_ID);
      if platform.level == Level3 {
        ns := ns.(stackBottom := stackMem, stackTop := stackTop);
      }
      partitions := partitions + [ns];
      partitions := partitions + [ZERO_ROW.(id := CORE_ID, secure := true, trusted := true)];
      ghost var rows := InitialRows(platform.level, stackMem, stackTop, decls);
      assert partitions == rows[..2];
      var k := 0;
      while k < |decls|
        invariant 0 <= k <= |decls| && k + 2 <= MAX_PARTITIONS
        invariant partitions == rows[..k + 2] && runningPartitionIdx == INVALID_PARTITION_IDX
      {
        NextDeclared(platform.level, stackMem, stackTop, decls, k);
        var added := DeclarePartition(decls[k]);
        if !added {
          return false;
        }
        k := k + 1;
      }
      InitialRowsDeclared(platform.level, stackMem, stackTop, decls);
      return true;
    }

    /** The core's request for the init function of row `idx`: the exception return that ends it starts that
        function, with zero arguments. */
    method StartInit(idx: nat)
      requires Valid() && halt == NotHalted && secureApiInit && idx < |partitions|
      requires Registered(View(), partitions[idx].id) && Admission(View(), InitRequest(partitions[idx])) == Success
      modifies this
      ensures Valid() && Abstract() == Step(old(Abstract()), Action.Request(InitRequest(old(partitions[idx]))))
      ensures var base := Sub32(psp, 0x20);
              && WordIs(memory, base, 0x18, old(partitions[idx].init)) && WordIs(memory, base, 0x14, returnSvc)
              && WordIs(memory, base, 0, 0) && WordIs(memory, base, 4, 0)
              && WordIs(memory, base, 8, 0) && WordIs(memory, base, 12, 0)
    {
      var row := partitions[idx];
      var r := SfnReq(row.id, row.init, [0, 0, 0, 0], EXC_NUM_THREAD_MODE, false);
      var _ := Request(r);
    }

    /** The init function of row `idx` as a call from the core partition. */
    method RunInit(idx: nat, script: InitScript)
      requires Valid() && activations == [] && halt == NotHalted
      requires idx < |partitions| && Closes(View(), idx, script)
      modifies this
      ensures Valid() && activations == [] && halt == NotHalted
      ensures View() == Step(BeforeInitReturn(old(View()), idx, script), Action.Return(0, script.lr)).core
    {
      ghost var c := View();
      assert Abstract() == Start(c);
      StartInit(idx);
      PerformAll(script.body);
      assert Abstract() == BeforeInitReturn(c, idx, script);
      Return(0, script.lr);
    }

    /** One round of the init loop. */
    method InitPartition(idx: nat, script: InitScript)
      requires Valid() && activations == [] && halt == NotHalted
      requires idx < |partitions| && BootingAt(View(), idx)
      requires partitions[idx].init != 0 ==> InitReturns(View(), idx, script)
      modifies this
      ensures Valid() && activations == [] && halt == NotHalted
      ensures View() == AfterRow(old(View()), idx, script)
    {
      if partitions[idx].init == 0 {
        SkipInit(idx);
      } else {
        CallInit(idx, script);
      }
    }

    method SkipInit(idx: nat)
      requires idx < |partitions| <= MAX_PARTITIONS
      modifies this`partitions, this`runningPartitionIdx
      ensures View() == NoInit(old(View()), idx)
    {
      SetState(idx, Idle);
      SetCaller(idx, INVALID_PARTITION_IDX);
    }

    method CallInit(idx: nat, script: InitScript)
      requires Valid() && activations == [] && halt == NotHalted
      requires idx < |partitions| && BootingAt(View(), idx) && partitions[idx].init != 0
      requires InitReturns(View(), idx, script)
      modifies this
      ensures Matched() && activations == [] && halt == NotHalted
      ensures View() == AfterInit(old(View()), idx, script)
    {
      InitCloses(View(), idx, script);
      RunInit(idx, script);
      SetIdle(idx);
    }

    method SetIdle(idx: nat)
      requires idx < |partitions| <= MAX_PARTITIONS
      modifies this`partitions, this`runningPartitionIdx
      ensures View() == WithState(old(View()), idx, Idle)
    {
      SetState(idx, Idle);
    }

    /** `tfm_spm_partition_init`, for init functions that all return TFM_SUCCESS. */
    method PartitionInit(scripts: seq<InitScript>)
      requires Valid() && activations == [] && halt == NotHalted && |scripts| == |partitions|
      requires BootingAt(View(), 0) && AllInitsSucceed(View(), 0, scripts)
      modifies this
      ensures Valid() && activations == [] && halt == NotHalted
      ensures View() == InitFrom(old(View()), 0, scripts).(initPhase := false)
    {
      var idx := 0;
      ghost var last := InitFrom(View(), 0, scripts);
      while idx < |partitions|
        invariant Valid() && activations == [] && halt == NotHalted
        invariant 0 <= idx <= |partitions| && BootLoop(View(), idx, scripts, last)
        decreases |scripts| - idx
      {
        BootLoopStep(View(), idx, scripts, last);
        InitPartition(idx, scripts[idx]);
        idx := idx + 1;
      }
      InitDone();
    }

    method InitDone()
      modifies this`secureApiInit
      ensures View() == old(View()).(initPhase := false)
    {
      secureApiInit := false;
    }

    /** `main`: the database, the core partition running, every init, then the hand-over. */
    method Boot(stackMem: u32, stackTop: u32, decls: seq<PartitionDecl>, scripts: seq<InitScript>)
      requires activations == [] && frames == [] && halt == NotHalted && secureLock == 0 && secureApiInit
      requires DistinctDecls(decls) && |decls| + 2 == |scripts| <= MAX_PARTITIONS
      requires AllInitsSucceed(Powered(View(), stackMem, stackTop, decls), 0, scripts)
      modifies this
      ensures Valid() && activations == [] && halt == NotHalted
      ensures View() == HandOver(InitFrom(Powered(old(View()), stackMem, stackTop, decls), 0, scripts))
      ensures Booted(View()) && AsDeclared(platform.level, partitions, stackMem, stackTop, decls)
      ensures psp == old(psp) && psplim == stackMem && aircr == old(aircr)
      ensures !old(unprivileged) ==> !unprivileged
    {
      ghost var c := View();
      BootEndsReady(c, stackMem, stackTop, decls, scripts);
      BootHandsOver(c, stackMem, stackTop, decls, scripts);
      PowerUp(stackMem, stackTop, decls);
      PoweredIsBooting(c, stackMem, stackTop, decls);
      PartitionInit(scripts);
      GoNonSecure();
    }

    /** The database is built and the core partition runs on its stack. */
    method PowerUp(stackMem: u32, stackTop: u32, decls: seq<PartitionDecl>)
      requires DistinctDecls(decls) && |decls| + 2 <= MAX_PARTITIONS && secureLock == 0 && secureApiInit
      modifies this`partitions, this`runningPartitionIdx, this`psplim
      ensures View() == Powered(old(View()), stackMem, stackTop, decls)
    {
      ghost var c := View();
      var _ := DbInit(stackMem, stackTop, decls);
      StartCore(stackMem);
      assert View() == Powered(c, stackMem, stackTop, decls);
    }

    method StartCore(stackMem: u32)
      requires CORE_ID < |partitions| <= MAX_PARTITIONS
      modifies this`partitions, this`runningPartitionIdx, this`psplim
      ensures View() == old(View()).(rows := old(partitions)[CORE_ID := old(partitions)[CORE_ID].(state := Running)],
                                     running := CORE_ID, psplim := stackMem)
    {
      SetState(CORE_ID, Running);
      psplim := stackMem;
    }

    method GoNonSecure()
      requires 2 <= |partitions| <= MAX_PARTITIONS && !secureApiInit
      modifies this`partitions, this`runningPartitionIdx
      ensures View() == HandOver(old(View()))
    {
      SetState(CORE_ID, Closed);
      SetState(NON_SECURE_ID, Running);
    }
  }
}
