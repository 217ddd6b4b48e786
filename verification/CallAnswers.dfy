/** What a request, a return and a set-buffer call answer at any point of any run after boot, in terms of
    their arguments alone. */
module CallAnswers {
  import opened Words
  import opened PartitionDb
  import opened CallMachine
  import opened CallRuns
  import opened CallTheorems
  import opened CallGuarantees

  // ---- Where an accepted request starts its callee

  /** A request switches to the callee's stack unless it is a level 1 call between secure partitions. */
  lemma CalleeStartsAt(base: Core, actions: seq<Action>, r: SfnReq)
    requires Booted(base)
    requires Run(Start(base), actions).halt == NotHalted && Enters(Run(Start(base), actions), Request(r))
    ensures
      var c := Run(Start(base), actions).core;
      var c' := Step(Run(Start(base), actions), Request(r)).core;
      var callee := PartitionIdx(c.rows, r.spId);
      var share := if r.nsCaller then NsCode else Scratch;
      && c'.running == callee != c.running && c'.rows[callee].share == share
      && c'.rows[c.running].stackPtr == (if c.platform.level == Level3 && !r.nsCaller then Sub32(c.psp, 0x20)
                                         else c.rows[c.running].stackPtr)
      && (c.platform.level == Level3 ==>
            && c'.hwShare == share
            && c'.psp == c.rows[callee].stackPtr && c'.psplim == base.rows[callee].stackBottom)
      && (c.platform.level == Level1 ==>
            && c'.hwShare == c.hwShare
            && c'.psp == (if r.nsCaller then c.platform.secureStackLimit else c.psp)
            && c'.psplim == (if r.nsCaller then c.platform.secureStackBase else c.psplim))
  {
    var m := Run(Start(base), actions);
    CalleeIsIdle(base, actions, r);
    StaticInEveryState(base, actions, PartitionIdx(m.core.rows, r.spId));
    CalledRows(m.core, r);
    CalledStack(m.core, r);
    CallerStack(m.core, r);
  }

  /** At level 3 a secure caller's stack pointer is kept as its request's SVC found it. */
  lemma CallerStack(c: Core, r: SfnReq)
    requires WellIndexed(c) && (r.SfnReq? ==> Registered(c, r.spId)) && Admission(c, r) == Success
    requires !c.initPhase && PartitionIdx(c.rows, r.spId) != c.running
    ensures Called(c, r).rows[c.running].stackPtr ==
            if c.platform.level == Level3 && !r.nsCaller then Sub32(c.psp, 0x20) else c.rows[c.running].stackPtr
  {
    CalledFields(c, r);
  }

  lemma CalleeIsIdle(base: Core, actions: seq<Action>, r: SfnReq)
    requires Booted(base) && Enters(Run(Start(base), actions), Request(r))
    ensures var c := Run(Start(base), actions).core; !c.initPhase && PartitionIdx(c.rows, r.spId) != c.running
  {
    BootedInv(base);
    RunKeepsInv(Start(base), actions, base);
    TouchedIsNoCaller(Run(Start(base), actions), Request(r));
  }

  lemma CalledRows(c: Core, r: SfnReq)
    requires WellIndexed(c) && (r.SfnReq? ==> Registered(c, r.spId)) && Admission(c, r) == Success
    ensures var c' := Called(c, r);
            var callee := PartitionIdx(c.rows, r.spId);
            var share := if r.nsCaller then NsCode else Scratch;
            && c'.running == callee && c'.rows[callee].share == share
            && c'.hwShare == if c.platform.level == Level3 then share else c.hwShare
  {
    CalledFields(c, r);
  }

  lemma CalledStack(c: Core, r: SfnReq)
    requires WellIndexed(c) && (r.SfnReq? ==> Registered(c, r.spId)) && Admission(c, r) == Success
    requires !c.initPhase && PartitionIdx(c.rows, r.spId) != c.running
    ensures var c' := Called(c, r);
            var callee := PartitionIdx(c.rows, r.spId);
            && (c.platform.level == Level3 ==>
                  c'.psp == c.rows[callee].stackPtr && c'.psplim == c.rows[callee].stackBottom)
            && (c.platform.level == Level1 ==>
                  && c'.psp == (if r.nsCaller then c.platform.secureStackLimit else c.psp)
                  && c'.psplim == (if r.nsCaller then c.platform.secureStackBase else c.psplim))
  {
  }

  // ---- Which returns halt

  /** A secure function's return halts the system exactly when it goes through the return SVC with one of the
      values the firmware keeps for itself: 1 to 0x1F, except 2. A direct return never halts. */
  lemma ReturnHaltsExactly(base: Core, actions: seq<Action>, retVal: int, lr: u32)
    requires Booted(base)
    requires var m := Run(Start(base), actions); m.halt == NotHalted && m.frames != []
    ensures
      var m := Run(Start(base), actions);
      && Step(m, Return(retVal, lr)).halt ==
         (if !Top(m).act.direct && 1 <= retVal <= 0x1F && retVal != 2 then HaltedBy(ReservedReturn) else NotHalted)
      && (Top(m).act.direct <==> m.core.platform.level == Level1 && !Top(m).act.nsCaller)
  {
    var m := Run(Start(base), actions);
    BootedInv(base);
    RunKeepsInv(Start(base), actions, base);
    TopLinked(m);
    if !Top(m).act.direct && ReservedValue(retVal) {
      ReservedStep(m, retVal, lr);
    } else {
      ReturnRestores(Top(m), m.core, retVal, lr);
      ReturnStep(m, retVal, lr);
    }
  }

  // ---- What a return leaves behind

  /** The row of a partition that has returned. */
  function Cleared(row: Row, stackPtr: u32): Row {
    row.(state := Idle, caller := INVALID_PARTITION_IDX, origPsp := 0, origPsplim := 0, origLr := 0, share := Disable,
         stackPtr := stackPtr)
  }

  /** A return that does not halt clears the callee's row, keeps the stack pointer it returned with there at level 3,
      and sets the caller running; the hardware gets the share mode of a secure caller and keeps the old one
      otherwise. */
  lemma ReturnLeaves(base: Core, actions: seq<Action>, retVal: int, lr: u32)
    requires Booted(base)
    requires var m := Run(Start(base), actions);
             m.halt == NotHalted && m.frames != [] && Step(m, Return(retVal, lr)).halt == NotHalted
    ensures
      var c := Run(Start(base), actions).core;
      var c' := Step(Run(Start(base), actions), Return(retVal, lr)).core;
      var callee, ret := c.running, Top(Run(Start(base), actions)).before.running;
      && callee < |c.rows| && ret < |c.rows| && callee != ret && c'.running == ret
      && c'.rows == c.rows[ret := c.rows[ret].(state := Running)][
           callee := Cleared(c.rows[callee], if c.platform.level == Level3 then c.psp else c.rows[callee].stackPtr)]
      && c'.hwShare == if c.platform.level == Level3 && c.rows[ret].secure then c.rows[ret].share else c.hwShare
  {
    var m := Run(Start(base), actions);
    BootedInv(base);
    RunKeepsInv(Start(base), actions, base);
    TopLinked(m);
    ReturnHaltsExactly(base, actions, retVal, lr);
    ReturnRestores(Top(m), m.core, retVal, lr);
    ReturnStep(m, retVal, lr);
    LinkedSaves(Top(m), m.core);
    ReturnedRows(m.core, Top(m).act, retVal, lr);
  }

  lemma ReturnedRows(c: Core, act: Activation, retVal: int, lr: u32)
    requires WellIndexed(c) && !c.initPhase && Returned(c, act, retVal, lr).Back? && c.running < |c.rows|
    requires c.rows[c.running].caller != c.running && (c.platform.level == Level3 ==> !act.direct)
    ensures
      var c' := Returned(c, act, retVal, lr).core;
      var callee, ret := c.running, c.rows[c.running].caller;
      && ret < |c.rows|
      && c'.rows == c.rows[ret := c.rows[ret].(state := Running)][
           callee := Cleared(c.rows[callee], if c.platform.level == Level3 then c.psp else c.rows[callee].stackPtr)]
      && c'.hwShare == if c.platform.level == Level3 && c.rows[ret].secure then c.rows[ret].share else c.hwShare
  {
    var c1 := if act.direct then c else EnterSvc(c);
    assert PopCheck(c1) == Success;
    PoppedRows(c1, c);
  }

  lemma PoppedRows(c1: Core, c: Core)
    requires WellIndexed(c1) && PopCheck(c1) == Success && !c1.initPhase && c1.rows[c1.running].caller != c1.running
    requires c == c1.(psp := c.psp) && (c1.platform.level == Level3 ==> Add32(c1.psp, SVC_STACK_FRAME_SIZE) == c.psp)
    ensures
      var c' := PopLock(c1);
      var callee, ret := c.running, c.rows[c.running].caller;
      && c'.rows == c.rows[ret := c.rows[ret].(state := Running)][
           callee := Cleared(c.rows[callee], if c.platform.level == Level3 then c.psp else c.rows[callee].stackPtr)]
      && c'.hwShare == if c.platform.level == Level3 && c.rows[ret].secure then c.rows[ret].share else c.hwShare
  {
  }

  // ---- What a set-buffer call sets

  /** The state after the running partition got the share mode `share`. */
  function WithShare(m: Machine, share: Share): Machine
    requires m.core.running < |m.core.rows|
  {
    var c := m.core;
    m.(core := c.(rows := c.rows[c.running := c.rows[c.running].(share := share)],
                  hwShare := if c.platform.level == Level3 then share else c.hwShare))
  }

  /** 1 sets non-secure code, 2 scratch, 4 the one of the two that fits the side the newest request came from;
      anything else, and any call from a partition that is not secure, is refused and changes nothing. */
  lemma SetBufferExactly(base: Core, actions: seq<Action>, arg: u32)
    requires Booted(base)
    requires var m := Run(Start(base), actions); m.halt == NotHalted && m.frames != []
    ensures var c := Run(Start(base), actions).core; c.running < |c.rows|
    ensures
      var m := Run(Start(base), actions);
      var accepted := m.core.rows[m.core.running].secure && (arg == 1 || arg == 2 || arg == 4);
      && (SetBufferArea(EnterSvc(m.core), arg).1 == if accepted then Success else InvalidParameter)
      && Step(m, SetBuffer(arg)) ==
         if !accepted then m
         else if arg == 1 || (arg == 4 && Top(m).act.nsCaller) then WithShare(m, NsCode)
         else WithShare(m, Scratch)
  {
    var m := Run(Start(base), actions);
    BootedInv(base);
    RunKeepsInv(Start(base), actions, base);
    TopLinked(m);
    LinkedSaves(Top(m), m.core);
    SetBufferOnTop(m, arg);
  }

  lemma SetBufferOnTop(m: Machine, arg: u32)
    requires WellIndexed(m.core) && m.halt == NotHalted && m.frames != [] && m.core.running < |m.core.rows|
    requires m.core.rows[m.core.running].caller < |m.core.rows|
    requires Top(m).act.nsCaller <==> !m.core.rows[m.core.rows[m.core.running].caller].secure
    ensures
      var accepted := m.core.rows[m.core.running].secure && (arg == 1 || arg == 2 || arg == 4);
      && (SetBufferArea(EnterSvc(m.core), arg).1 == if accepted then Success else InvalidParameter)
      && Step(m, SetBuffer(arg)) ==
         if !accepted then m
         else if arg == 1 || (arg == 4 && Top(m).act.nsCaller) then WithShare(m, NsCode)
         else WithShare(m, Scratch)
  {
    assert LeaveSvc(EnterSvc(m.core)) == m.core;
  }

  /** At any point inside a call, after whatever it did to its share mode, 4 gives back the mode its own
      request set. */
  lemma DefaultShareIsTheRequests(base: Core, before: seq<Action>, r: SfnReq, body: seq<Action>)
    requires Booted(base)
    requires
      var m := Run(Start(base), before);
      && m.halt == NotHalted && Enters(m, Request(r))
      && StaysInside(Step(m, Request(r)), body, |m.frames|)
      && |Run(Step(m, Request(r)), body).frames| == |m.frames| + 1
      && Run(Step(m, Request(r)), body).halt == NotHalted
    ensures
      var m := Run(Start(base), before);
      var callee := PartitionIdx(m.core.rows, r.spId);
      var inside := Run(Step(m, Request(r)), body);
      && inside.core.running == callee
      && (base.rows[callee].secure ==>
            Step(inside, SetBuffer(4)) == WithShare(inside, Step(m, Request(r)).core.rows[callee].share))
  {
    var m := Run(Start(base), before);
    var m1, callee := Step(m, Request(r)), PartitionIdx(m.core.rows, r.spId);
    var inside, all := Run(m1, body), before + [Request(r)] + body;
    EnclosedFrames(m1, body, |m.frames|);
    RunConcat(Start(base), before, [Request(r)]);
    RunOne(m, Request(r));
    RunConcat(Start(base), before + [Request(r)], body);
    assert Run(Start(base), all) == inside;
    assert Top(inside) == FrameOf(m.core, r);
    SetBufferExactly(base, all, 4);
    CalleeRuns(base, all);
    StaticInEveryState(base, all, callee);
    CalledRows(m.core, r);
  }

  lemma CalleeRuns(base: Core, actions: seq<Action>)
    requires Booted(base) && Run(Start(base), actions).frames != []
    ensures var m := Run(Start(base), actions); m.core.running == Top(m).callee < |m.core.rows|
  {
    BootedInv(base);
    RunKeepsInv(Start(base), actions, base);
    TopLinked(Run(Start(base), actions));
  }

  // ---- Privilege after boot

  lemma ReturnKeepsPrivilege(c: Core, act: Activation, retVal: int, lr: u32)
    requires WellIndexed(c) && !c.initPhase
    ensures Returned(c, act, retVal, lr).core.unprivileged == c.unprivileged
  {
  }

  lemma StepKeepsPrivilege(m: Machine, a: Action)
    requires WellIndexed(m.core) && !m.core.initPhase
    ensures Step(m, a).core.unprivileged == m.core.unprivileged
  {
    if a.Return? && m.frames != [] {
      ReturnKeepsPrivilege(m.core, Top(m).act, a.retVal, a.lr);
    }
  }

  /** Once boot is over no call, return or set-buffer request changes the privilege of thread mode. */
  lemma {:induction false} RunKeepsPrivilege(m: Machine, actions: seq<Action>)
    requires WellIndexed(m.core) && !m.core.initPhase
    ensures Run(m, actions).core.unprivileged == m.core.unprivileged
    decreases |actions|
  {
    if actions == [] {
    } else {
      StepKeepsPrivilege(m, actions[0]);
      RunKeepsPrivilege(Step(m, actions[0]), actions[1..]);
    }
  }

  // ---- Why a request is refused

  /** The request comes from the side that is running, in the mode that side must use. */
  predicate FromRunningSide(c: Core, r: SfnReq)
    requires r.SfnReq?
  {
    if c.running == NON_SECURE_ID then r.nsCaller && r.excNum == EXC_NUM_SVCALL
    else c.running < |c.rows| && c.rows[c.running].secure && !r.nsCaller && r.excNum == EXC_NUM_THREAD_MODE
  }

  /** Each reason to refuse, exactly: a request for a partition on the call chain is re-entrant, a non-secure
      request while any call is in progress finds the secure side locked. */
  lemma RefusedExactly(base: Core, actions: seq<Action>, r: SfnReq)
    requires Booted(base) && r.SfnReq? && Registered(Run(Start(base), actions).core, r.spId)
    ensures
      var c := Run(Start(base), actions).core;
      var callee := PartitionIdx(c.rows, r.spId);
      var active := callee in WalkCallers(c.rows, c.running, |c.rows|);
      var formed := r.spId != 0 && r.sfn != 0;
      && (Admission(c, r) == InvalidParameter <==> !formed)
      && (Admission(c, r) == InvalidExcMode <==> formed && r.excNum != 0 && (r.excNum != 11 || !r.nsCaller))
      && (Admission(c, r) == NsThreadModeCall <==> formed && r.nsCaller && r.excNum == 0)
      && (Admission(c, r) == SecureDomainLocked <==>
            formed && r.nsCaller && r.excNum == 11 && c.running != NON_SECURE_ID)
      && (Admission(c, r) == NonReentrant <==> formed && FromRunningSide(c, r) && active)
      && (Admission(c, r) == Success <==>
            formed && FromRunningSide(c, r) && !active && base.rows[callee].state == Idle)
      && Admission(c, r) != UnlockFailed
  {
    var c := Run(Start(base), actions).core;
    CallChainInEveryState(base, actions);
    StaticInEveryState(base, actions, NON_SECURE_ID);
    RefusedOnChain(c, base, r);
  }

  lemma RefusedOnChain(c: Core, base: Core, r: SfnReq)
    requires WellIndexed(c) && Booted(base) && DescribesOneChain(c, base) && !c.initPhase
    requires !c.rows[NON_SECURE_ID].secure && r.SfnReq? && Registered(c, r.spId)
    ensures
      var callee := PartitionIdx(c.rows, r.spId);
      var active := callee in WalkCallers(c.rows, c.running, |c.rows|);
      var formed := r.spId != 0 && r.sfn != 0;
      && (Admission(c, r) == InvalidParameter <==> !formed)
      && (Admission(c, r) == InvalidExcMode <==> formed && r.excNum != 0 && (r.excNum != 11 || !r.nsCaller))
      && (Admission(c, r) == NsThreadModeCall <==> formed && r.nsCaller && r.excNum == 0)
      && (Admission(c, r) == SecureDomainLocked <==>
            formed && r.nsCaller && r.excNum == 11 && c.running != NON_SECURE_ID)
      && (Admission(c, r) == NonReentrant <==> formed && FromRunningSide(c, r) && active)
      && (Admission(c, r) == Success <==>
            formed && FromRunningSide(c, r) && !active && base.rows[callee].state == Idle)
      && Admission(c, r) != UnlockFailed
  {
    var callee := PartitionIdx(c.rows, r.spId);
    CalleeRests(c, base, callee);
    CalleeBusy(c, base, callee);
    assert c.lock == 0 <==> c.running == NON_SECURE_ID;
  }

  /** A partition is running, suspended or blocked exactly when it is on the chain. */
  lemma CalleeBusy(c: Core, base: Core, callee: u32)
    requires Booted(base) && DescribesOneChain(c, base) && callee < |c.rows|
    ensures var state := c.rows[callee].state;
            state == Running || state == Suspended || state == Blocked <==>
            callee in WalkCallers(c.rows, c.running, |c.rows|)
  {
    var walk := WalkCallers(c.rows, c.running, |c.rows|);
    assert walk == [walk[0]] + walk[1..];
    assert callee in walk <==> callee == c.running || callee in walk[1..];
    assert NON_SECURE_ID in walk;
  }
}
