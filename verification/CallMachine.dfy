/** The secure call machine: what one request, one return and one set-buffer call do to the
    partition database, the big lock and the banked registers. */
module CallMachine {
  import opened Words
  import opened PartitionDb

  const SVC_STACK_FRAME_SIZE: u32 := 0x20
  const EXC_NUM_THREAD_MODE: u32 := 0
  const EXC_NUM_SVCALL: u32 := 11
  const TFM_PARTITION_BUSY: int := 2
  const TFM_PARTITION_SPECIFIC_ERROR_MIN: int := 0x20

  datatype Status =
    | Success
    | SecureDomainLocked
    | InvalidParameter
    | NonReentrant
    | NsThreadModeCall
    | InvalidExcMode
    | LockFailed
    | UnlockFailed

  type Args = s: seq<u32> | |s| == 4 witness [0, 0, 0, 0]

  datatype SfnReq =
    | NullReq
    | SfnReq(spId: u32, sfn: u32, args: Args, excNum: u32, nsCaller: bool)

  /** What the build fixes: isolation level, the shared level 1 stack, and the return label. */
  datatype Platform = Platform(level: Level, secureStackBase: u32, secureStackLimit: u32, returnLr: u32)

  datatype Core = Core(
    platform: Platform,
    rows: seq<Row>,
    running: u32,
    lock: int,
    initPhase: bool,
    psp: u32,
    psplim: u32,
    unprivileged: bool,
    hwShare: Share,
    aircr: bv32,
    savedAircr: bv32)

  predicate ValidIdx(c: Core, i: u32) {
    i == INVALID_PARTITION_IDX || i < |c.rows|
  }

  /** Indices stored in the database point into it. */
  predicate WellIndexed(c: Core) {
    && |c.rows| <= MAX_PARTITIONS
    && ValidIdx(c, c.running)
    && forall i :: 0 <= i < |c.rows| ==> ValidIdx(c, c.rows[i].caller)
  }

  /** What no request, return or set-buffer call changes. */
  predicate SameSetting(a: Core, b: Core) {
    a.platform == b.platform && a.initPhase == b.initPhase && |a.rows| == |b.rows|
  }

  predicate Registered(c: Core, id: u32)
    requires |c.rows| <= MAX_PARTITIONS
  {
    PartitionIdx(c.rows, id) != INVALID_PARTITION_IDX
  }

  // ---- AIRCR: hardware accepts a write only with the key 0x05FA and reads the key back as 0xFA05

  const PRIS: bv32 := 0x0000_4000
  const VECTKEY_MASK: bv32 := 0xFFFF_0000

  function WriteAircr(reg: bv32, w: bv32): bv32 {
    if w & VECTKEY_MASK == 0x05FA_0000 then 0xFA05_0000 | (w & !VECTKEY_MASK) else reg
  }

  /** The register while a non-secure call runs in the secure side. */
  function ConfiguredAircr(aircr: bv32): bv32 {
    var vectkey := !aircr & VECTKEY_MASK;
    WriteAircr(aircr, PRIS | vectkey | (aircr & !VECTKEY_MASK))
  }

  /** The register `reg` after the value `saved` is put back. */
  function DeconfiguredAircr(reg: bv32, saved: bv32): bv32 {
    var vectkey := !saved & VECTKEY_MASK;
    WriteAircr(reg, !PRIS & (vectkey | (saved & !VECTKEY_MASK)))
  }

  function ConfigureSecureException(c: Core): Core {
    c.(savedAircr := c.aircr, aircr := ConfiguredAircr(c.aircr))
  }

  function DeconfigureSecureException(c: Core): Core {
    c.(aircr := DeconfiguredAircr(c.aircr, c.savedAircr))
  }

  // ---- Admission

  function IntegrityCheck(r: SfnReq): Status {
    if r.NullReq? || r.spId == 0 || r.sfn == 0 then InvalidParameter else Success
  }

  function RulesCheck(c: Core, r: SfnReq): Status
    requires r.SfnReq?
  {
    if r.excNum != EXC_NUM_THREAD_MODE && r.excNum != EXC_NUM_SVCALL then InvalidExcMode
    else if r.nsCaller then
      if r.excNum == EXC_NUM_THREAD_MODE then NsThreadModeCall
      else if c.lock != 0 then SecureDomainLocked
      else Success
    else if r.excNum != EXC_NUM_THREAD_MODE then InvalidExcMode
    else Success
  }

  /** The first call into a partition, made by the core while the system boots. */
  predicate IsInitCall(c: Core, caller: u32, callee: u32)
    requires caller < |c.rows| && callee < |c.rows|
  {
    c.initPhase && c.rows[caller].id == CORE_ID && c.rows[callee].state == Uninit
  }

  function PushCheck(c: Core, r: SfnReq): (s: Status)
    requires r.SfnReq? && WellIndexed(c) && Registered(c, r.spId)
    ensures s == Success ==> c.running != INVALID_PARTITION_IDX
  {
    if c.running == INVALID_PARTITION_IDX then LockFailed
    else if c.rows[c.running].secure != !r.nsCaller then LockFailed
    else
      var callee := PartitionIdx(c.rows, r.spId);
      var state := c.rows[callee].state;
      if IsInitCall(c, c.running, callee) then Success
      else if state == Running || state == Suspended || state == Blocked then NonReentrant
      else if state != Idle then LockFailed
      else Success
  }

  function Admission(c: Core, r: SfnReq): (s: Status)
    requires WellIndexed(c) && (r.SfnReq? ==> Registered(c, r.spId))
    ensures s == Success ==> r.SfnReq? && c.running != INVALID_PARTITION_IDX
  {
    if IntegrityCheck(r) != Success then IntegrityCheck(r)
    else if RulesCheck(c, r) != Success then RulesCheck(c, r)
    else PushCheck(c, r)
  }

  // ---- Push and pop

  /** The thread-mode context moves to the callee's stack, except for a level 1 direct call. */
  predicate SwitchesStack(c: Core, r: SfnReq)
    requires r.SfnReq?
  {
    c.platform.level == Level3 || r.excNum != EXC_NUM_THREAD_MODE || c.initPhase
  }

  function RequestShare(r: SfnReq): Share
    requires r.SfnReq?
  {
    if r.nsCaller then NsCode else Scratch
  }

  /** At level 3 a secure caller's stack pointer is kept in its row. */
  function CallerSaved(c: Core): (rows: seq<Row>)
    requires c.running < |c.rows|
    ensures |rows| == |c.rows|
  {
    if c.platform.level == Level3 && c.rows[c.running].secure
    then c.rows[c.running := c.rows[c.running].(stackPtr := c.psp)]
    else c.rows
  }

  function CallRecorded(c: Core, r: SfnReq, callee: u32): (rows: seq<Row>)
    requires r.SfnReq? && c.running < |c.rows| && callee < |c.rows|
    ensures |rows| == |c.rows|
  {
    var rows := CallerSaved(c);
    rows[callee := rows[callee].(origPsp := c.psp, origPsplim := c.psplim,
      origLr := c.platform.returnLr, caller := c.running, share := RequestShare(r))]
  }

  /** The rows after `tfm_push_lock` accepted the call, updated in the order of the source. */
  function PushRows(c: Core, r: SfnReq, callee: u32): (rows: seq<Row>)
    requires r.SfnReq? && c.running < |c.rows| && callee < |c.rows|
    ensures |rows| == |c.rows|
  {
    var recorded := CallRecorded(c, r, callee);
    var blocked := recorded[c.running := recorded[c.running].(state := Blocked)];
    blocked[callee := blocked[callee].(state := Running)]
  }

  /** Where the callee's context frame is built: its own stack, or the shared one at level 1. */
  function PartitionPsp(c: Core, callee: u32): u32
    requires c.running < |c.rows| && callee < |c.rows|
  {
    if c.platform.level == Level1 then c.platform.secureStackLimit
    else if callee == c.running && c.rows[callee].secure then c.psp
    else c.rows[callee].stackPtr
  }

  function PartitionPsplim(c: Core, callee: u32): u32
    requires callee < |c.rows|
  {
    if c.platform.level == Level1 then c.platform.secureStackBase else c.rows[callee].stackBottom
  }

  /** While an untrusted partition initialises, thread mode is unprivileged. */
  function InitPrivilege(c: Core, callee: u32): (c': Core)
    requires c.running < |c.rows| && callee < |c.rows|
  {
    c.(unprivileged := c.unprivileged ||
         (IsInitCall(c, c.running, callee) && c.platform.level == Level3 && !c.rows[callee].trusted))
  }

  /** Context, stack registers, states and lock of an accepted call. */
  function Switched(c: Core, r: SfnReq, callee: u32): (c': Core)
    requires r.SfnReq? && c.running < |c.rows| && callee < |c.rows|
  {
    c.(rows := PushRows(c, r, callee),
       running := callee,
       lock := c.lock + 1,
       hwShare := if c.platform.level == Level3 then RequestShare(r) else c.hwShare,
       psp := if SwitchesStack(c, r) then Sub32(PartitionPsp(c, callee), SVC_STACK_FRAME_SIZE) else c.psp,
       psplim := if SwitchesStack(c, r) then PartitionPsplim(c, callee) else c.psplim)
  }

  function PushLock(c: Core, r: SfnReq): (c': Core)
    requires r.SfnReq? && WellIndexed(c) && Registered(c, r.spId)
    requires PushCheck(c, r) == Success
    ensures WellIndexed(c') && SameSetting(c, c')
  {
    var callee := PartitionIdx(c.rows, r.spId);
    Switched(InitPrivilege(c, callee), r, callee)
  }

  function PopCheck(c: Core): (s: Status)
    requires WellIndexed(c)
    ensures s == Success ==>
              c.running < |c.rows| && c.rows[c.running].caller < |c.rows|
  {
    if c.running == INVALID_PARTITION_IDX then UnlockFailed
    else if c.rows[c.running].caller == INVALID_PARTITION_IDX then UnlockFailed
    else Success
  }

  /** Whether `tfm_pop_lock` gives the caller its stack and link register back. */
  predicate RestoresContext(c: Core)
    requires WellIndexed(c) && PopCheck(c) == Success
  {
    c.platform.level == Level3 || !c.rows[c.rows[c.running].caller].secure || c.initPhase
  }

  function PopCleaned(c: Core): (rows: seq<Row>)
    requires c.running < |c.rows|
    ensures |rows| == |c.rows|
  {
    var cur := c.running;
    var sp := if c.platform.level == Level3 then Add32(c.psp, SVC_STACK_FRAME_SIZE) else c.rows[cur].stackPtr;
    c.rows[cur := c.rows[cur].(stackPtr := sp, caller := INVALID_PARTITION_IDX,
      origPsp := 0, origPsplim := 0, origLr := 0, share := Disable, state := Idle)]
  }

  function PopRows(c: Core): (rows: seq<Row>)
    requires WellIndexed(c) && PopCheck(c) == Success
    ensures |rows| == |c.rows|
  {
    var ret := c.rows[c.running].caller;
    var rows := PopCleaned(c);
    rows[ret := rows[ret].(state := Running)]
  }

  function PopLock(c: Core): (c': Core)
    requires WellIndexed(c) && PopCheck(c) == Success
    ensures WellIndexed(c') && SameSetting(c, c')
  {
    var cur := c.running;
    var ret := c.rows[cur].caller;
    c.(rows := PopRows(c),
       running := ret,
       lock := c.lock - 1,
       unprivileged := c.unprivileged &&
         !(c.platform.level == Level3 && c.initPhase && !c.rows[cur].trusted),
       hwShare := if c.platform.level == Level3 && !c.initPhase && c.rows[ret].secure
                  then c.rows[ret].share else c.hwShare,
       psp := if RestoresContext(c) then c.rows[cur].origPsp else c.psp,
       psplim := if RestoresContext(c) then c.rows[cur].origPsplim else c.psplim)
  }

  /** The link register the return handler sees after the pop. */
  function PoppedLr(c: Core, lr: u32): u32
    requires WellIndexed(c) && PopCheck(c) == Success
  {
    if RestoresContext(c) then c.rows[c.running].origLr else lr
  }

  // ---- Set-buffer

  const BUFFER_SHARE_NS_CODE: u32 := 1
  const BUFFER_SHARE_SCRATCH: u32 := 2
  const BUFFER_SHARE_DEFAULT: u32 := 4

  /** The caller's secure flag; the row behind an invalid caller index reads as non-secure here. */
  predicate CallerSecure(c: Core)
    requires WellIndexed(c) && c.running < |c.rows|
  {
    var caller := c.rows[c.running].caller;
    caller != INVALID_PARTITION_IDX && c.rows[caller].secure
  }

  function SetBufferArea(c: Core, arg: u32): (r: (Core, Status))
    requires WellIndexed(c) && c.running < |c.rows|
    ensures WellIndexed(r.0) && SameSetting(c, r.0)
  {
    if !c.rows[c.running].secure then (c, InvalidParameter)
    else if arg != BUFFER_SHARE_DEFAULT && arg != BUFFER_SHARE_SCRATCH && arg != BUFFER_SHARE_NS_CODE then
      (c, InvalidParameter)
    else
      var share :=
        if arg == BUFFER_SHARE_DEFAULT then (if CallerSecure(c) then Scratch else NsCode)
        else if arg == BUFFER_SHARE_SCRATCH then Scratch
        else NsCode;
      (c.(rows := c.rows[c.running := c.rows[c.running].(share := share)],
          hwShare := if c.platform.level == Level3 then share else c.hwShare), Success)
  }

  // ---- Whole requests and returns, with the exception stacking around them

  /** A suspended `tfm_core_sfn_request_function` on the main stack. */
  datatype Activation = Activation(nsCaller: bool, direct: bool, viaSvc: bool)

  /** Thread-mode requests arrive through an SVC, except level 1 partition-to-partition calls. */
  predicate ViaSvc(c: Core, r: SfnReq) {
    r.SfnReq? && r.excNum == EXC_NUM_THREAD_MODE && (c.platform.level == Level3 || c.initPhase)
  }

  function EnterSvc(c: Core): Core { c.(psp := Sub32(c.psp, SVC_STACK_FRAME_SIZE)) }

  function LeaveSvc(c: Core): Core { c.(psp := Add32(c.psp, SVC_STACK_FRAME_SIZE)) }

  function Arrived(c: Core, r: SfnReq): Core {
    c.(psp := if ViaSvc(c, r) then EnterSvc(c).psp else c.psp)
  }

  /** The state at the exception return of an accepted request. */
  function Entered(c: Core, r: SfnReq): (c': Core)
    requires WellIndexed(c) && (r.SfnReq? ==> Registered(c, r.spId))
    requires Admission(c, r) == Success
    ensures WellIndexed(c') && SameSetting(c, c')
  {
    var pushed := PushLock(c, r);
    pushed.(savedAircr := if r.nsCaller then ConfigureSecureException(pushed).savedAircr else pushed.savedAircr,
            aircr := if r.nsCaller then ConfigureSecureException(pushed).aircr else pushed.aircr)
  }

  /** The state in which the callee's first instruction executes. */
  function Called(c: Core, r: SfnReq): (c': Core)
    requires WellIndexed(c) && (r.SfnReq? ==> Registered(c, r.spId))
    requires Admission(c, r) == Success
    ensures WellIndexed(c') && SameSetting(c, c')
  {
    var entered := Entered(Arrived(c, r), r);
    entered.(psp := if SwitchesStack(c, r) then LeaveSvc(entered).psp else entered.psp)
  }

  function ActivationOf(c: Core, r: SfnReq): Activation
    requires r.SfnReq?
  {
    Activation(r.nsCaller, !SwitchesStack(c, r), ViaSvc(c, r))
  }

  predicate ReservedValue(retVal: int) {
    0 < retVal < TFM_PARTITION_SPECIFIC_ERROR_MIN && retVal != TFM_PARTITION_BUSY
  }

  datatype HaltReason = ReservedReturn | UnlockError | LrMismatch

  datatype Outcome = Back(core: Core) | Halted(core: Core, reason: HaltReason)

  /** The pop and what follows it, once the return value has passed. */
  function Unwound(c1: Core, act: Activation, lr: u32): (o: Outcome)
    requires WellIndexed(c1)
    ensures WellIndexed(o.core) && SameSetting(c1, o.core)
  {
    if PopCheck(c1) != Success then Halted(c1, UnlockError)
    else
      var c2 := PopLock(c1);
      if !act.direct && PoppedLr(c1, lr) != c1.platform.returnLr then Halted(c2, LrMismatch)
      else
        var c3 := if act.nsCaller then DeconfigureSecureException(c2) else c2;
        Back(if act.viaSvc then LeaveSvc(c3) else c3)
  }

  /** The secure function returns: pop, deconfigure, and the caller's exception return. */
  function Returned(c: Core, act: Activation, retVal: int, lr: u32): (o: Outcome)
    requires WellIndexed(c)
    ensures WellIndexed(o.core) && SameSetting(c, o.core)
  {
    var c1 := if act.direct then c else EnterSvc(c);
    if !act.direct && ReservedValue(retVal) then Halted(c1, ReservedReturn) else Unwound(c1, act, lr)
  }
}
