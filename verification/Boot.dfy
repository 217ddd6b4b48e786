/** Boot: building the partition database, running every partition's init function as a call from the
    core partition, and handing over to the non-secure side. */
module Boot {
  import opened Words
  import opened PartitionDb
  import opened CallMachine
  import opened CallRuns
  import opened CallTheorems
  import opened CallGuarantees

  /** One entry of the generated partition list. `init` is 0 when no init function is added. */
  datatype PartitionDecl = PartitionDecl(
    id: u32, secure: bool, trusted: bool, init: u32, stackBottom: u32, stackTop: u32)

  const ZERO_ROW: Row := Row(0, false, false, 0, 0, 0, Uninit, 0, 0, 0, 0, Disable, 0)

  function DeclaredRow(level: Level, d: PartitionDecl): Row {
    var r := ZERO_ROW.(id := d.id, secure := d.secure, trusted := d.trusted, init := d.init);
    if level == Level1 then r
    else r.(stackBottom := d.stackBottom, stackTop := d.stackTop, stackPtr := d.stackTop)
  }

  function NonSecureRow(level: Level, stackMem: u32, stackTop: u32): Row {
    var r := ZERO_ROW.(id := NON_SECURE_ID);
    if level == Level1 then r else r.(stackBottom := stackMem, stackTop := stackTop)
  }

  const CORE_ROW: Row := ZERO_ROW.(id := CORE_ID, secure := true, trusted := true)

  function InitialRows(level: Level, stackMem: u32, stackTop: u32, decls: seq<PartitionDecl>): (rows: seq<Row>)
    ensures |rows| == |decls| + 2
  {
    [NonSecureRow(level, stackMem, stackTop), CORE_ROW]
    + seq(|decls|, k requires 0 <= k < |decls| => DeclaredRow(level, decls[k]))
  }

  /** What the generated list provides: identifiers of its own, all different. */
  predicate DistinctDecls(decls: seq<PartitionDecl>) {
    && (forall k :: 0 <= k < |decls| ==> decls[k].id != NON_SECURE_ID && decls[k].id != CORE_ID
                                         && decls[k].id != INVALID_PARTITION_ID)
    && (forall j, k :: 0 <= j < k < |decls| ==> decls[j].id != decls[k].id)
  }

  /** The core after the database is built and the core partition is marked running. */
  function Powered(c: Core, stackMem: u32, stackTop: u32, decls: seq<PartitionDecl>): (c': Core)
    requires |decls| + 2 <= MAX_PARTITIONS
    ensures WellIndexed(c') && |c'.rows| == |decls| + 2
  {
    var rows := InitialRows(c.platform.level, stackMem, stackTop, decls);
    c.(rows := rows[1 := rows[1].(state := Running)], running := CORE_ID, lock := 0,
       initPhase := true, psplim := stackMem)
  }

  function InitRequest(r: Row): SfnReq {
    SfnReq(r.id, r.init, [0, 0, 0, 0], EXC_NUM_THREAD_MODE, false)
  }

  /** What the init function of one partition does, from its first instruction to its return. */
  datatype InitScript = InitScript(body: seq<Action>, lr: u32)

  function WithState(c: Core, i: nat, state: PartitionState): (c': Core)
    requires i < |c.rows| <= MAX_PARTITIONS
    ensures SameSetting(c, c') && (WellIndexed(c) ==> WellIndexed(c'))
  {
    var c1 := c.(rows := c.rows[i := c.rows[i].(state := state)]);
    if state == Running then c1.(running := i) else c1
  }

  /** The machine where the init function of row `i` is about to return. */
  function BeforeInitReturn(c: Core, i: nat, script: InitScript): (m: Machine)
    requires WellIndexed(c) && i < |c.rows|
    ensures WellIndexed(m.core) && SameSetting(c, m.core)
  {
    Run(Step(Start(c), Request(InitRequest(c.rows[i]))), script.body)
  }

  /** The core partition runs the init function of row `i`, which returns TFM_SUCCESS. */
  function AfterInit(c: Core, i: nat, script: InitScript): (c': Core)
    requires WellIndexed(c) && i < |c.rows|
    ensures WellIndexed(c') && SameSetting(c, c')
  {
    WithState(Step(BeforeInitReturn(c, i, script), Return(0, script.lr)).core, i, Idle)
  }

  /** The init function runs to a successful return of its own, with its nested calls closed. */
  predicate InitReturns(c: Core, i: nat, script: InitScript)
    requires WellIndexed(c) && i < |c.rows|
  {
    var entered := Step(Start(c), Request(InitRequest(c.rows[i])));
    && StaysInside(entered, script.body, 0)
    && |BeforeInitReturn(c, i, script).frames| == 1
    && BeforeInitReturn(c, i, script).halt == NotHalted
  }

  /** The init function and the functions it calls return with the stack pointer they started with. */
  predicate InitBalanced(c: Core, i: nat, script: InitScript)
    requires WellIndexed(c) && i < |c.rows|
  {
    && BalancedRun(Step(Start(c), Request(InitRequest(c.rows[i]))), script.body)
    && Balanced(BeforeInitReturn(c, i, script), Return(0, script.lr))
  }

  function AfterRow(c: Core, i: nat, script: InitScript): (c': Core)
    requires WellIndexed(c) && i < |c.rows|
    ensures WellIndexed(c') && SameSetting(c, c')
  {
    if c.rows[i].init == 0 then NoInit(c, i) else AfterInit(c, i, script)
  }

  /** A partition without an init function is ready at once. */
  function NoInit(c: Core, i: nat): (c': Core)
    requires i < |c.rows|
  {
    c.(rows := c.rows[i := c.rows[i].(state := Idle, caller := INVALID_PARTITION_IDX)])
  }

  function InitFrom(c: Core, i: nat, scripts: seq<InitScript>): (c': Core)
    requires WellIndexed(c) && i <= |c.rows| == |scripts|
    ensures WellIndexed(c') && SameSetting(c, c')
    decreases |c.rows| - i
  {
    if i == |c.rows| then c else InitFrom(AfterRow(c, i, scripts[i]), i + 1, scripts)
  }

  predicate AllInitsSucceed(c: Core, i: nat, scripts: seq<InitScript>)
    requires WellIndexed(c) && i <= |c.rows| == |scripts|
    decreases |c.rows| - i
  {
    i == |c.rows| ||
    ((c.rows[i].init != 0 ==> InitReturns(c, i, scripts[i])) &&
     AllInitsSucceed(AfterRow(c, i, scripts[i]), i + 1, scripts))
  }

  predicate AllInitsBalanced(c: Core, i: nat, scripts: seq<InitScript>)
    requires WellIndexed(c) && i <= |c.rows| == |scripts|
    decreases |c.rows| - i
  {
    i == |c.rows| ||
    ((c.rows[i].init != 0 ==> InitBalanced(c, i, scripts[i])) &&
     AllInitsBalanced(AfterRow(c, i, scripts[i]), i + 1, scripts))
  }

  /** The core handed to the non-secure side. */
  function HandOver(c: Core): (c': Core)
    requires 2 <= |c.rows| <= MAX_PARTITIONS
  {
    WithState(WithState(c.(initPhase := false), CORE_ID, Closed), NON_SECURE_ID, Running)
  }

  // ---- The boot loop keeps the database in step with its index

  ghost predicate BootingAt(c: Core, n: nat) {
    && WellIndexed(c) && n <= |c.rows| && |c.rows| >= 2 && DistinctIds(c) && c.initPhase
    && c.running == CORE_ID && c.lock == 0
    && c.rows[0].id == NON_SECURE_ID && !c.rows[0].secure && c.rows[0].init == 0
    && c.rows[1].id == CORE_ID && c.rows[1].secure && c.rows[1].init == 0
    && (n >= 2 ==> c.rows[1].caller == INVALID_PARTITION_IDX)
    && (forall i :: 0 <= i < |c.rows| && i != 1 ==> BootRow(c, i, n))
  }

  predicate BootRow(c: Core, i: nat, n: nat) {
    && i < |c.rows|
    && c.rows[i].state == (if i < n then Idle else Uninit)
    && (i < n ==> c.rows[i].caller == INVALID_PARTITION_IDX)
    && c.rows[i].id != INVALID_PARTITION_ID
  }

  lemma PoweredIsBooting(c: Core, stackMem: u32, stackTop: u32, decls: seq<PartitionDecl>)
    requires |decls| + 2 <= MAX_PARTITIONS && DistinctDecls(decls)
    ensures BootingAt(Powered(c, stackMem, stackTop, decls), 0)
  {
    var c' := Powered(c, stackMem, stackTop, decls);
    forall i | 0 <= i < |c'.rows|
      ensures c'.rows[i].caller == 0
      ensures i >= 2 ==> c'.rows[i] == DeclaredRow(c.platform.level, decls[i - 2])
    {
    }
  }

  lemma {:induction false} IdIsIndex(c: Core, i: nat, from: nat)
    requires |c.rows| <= MAX_PARTITIONS && DistinctIds(c) && from <= i < |c.rows|
    ensures FirstWithId(c.rows, c.rows[i].id, from) == i
    decreases i - from
  {
    if from == i {
    } else {
      IdIsIndex(c, i, from + 1);
    }
  }

  lemma InitRequestAccepted(c: Core, i: nat)
    requires BootingAt(c, i) && i < |c.rows| && c.rows[i].init != 0
    ensures i >= 2
    ensures PartitionIdx(c.rows, c.rows[i].id) == i
    ensures Admission(c, InitRequest(c.rows[i])) == Success
  {
    IdIsIndex(c, i, 0);
    assert BootRow(c, i, i);
    assert c.rows[0].id != c.rows[i].id && c.rows[1].id != c.rows[i].id;
  }

  lemma RestingChain(c: Core, n: nat)
    requires BootingAt(c, n) && n >= 2
    ensures ChainShape(c, [CORE_ID])
  {
    forall i | 0 <= i < |c.rows| && i !in [CORE_ID]
      ensures OffChain(c.rows[i])
    {
      assert BootRow(c, i, n);
    }
  }

  lemma EnteredInv(c: Core, i: nat)
    requires BootingAt(c, i) && i < |c.rows| && c.rows[i].init != 0
    ensures var m := Step(Start(c), Request(InitRequest(c.rows[i])));
            && Inv(m, c) && m.frames == [FrameOf(c, InitRequest(c.rows[i]))] && Chain(m) == [CORE_ID, i]
            && m.halt == NotHalted && m.core.initPhase
  {
    var r := InitRequest(c.rows[i]);
    InitRequestAccepted(c, i);
    RestingChain(c, i);
    EnteredStep(c, r, i);
    EnteredMachine(c, FrameOf(c, r), Called(c, r));
  }

  lemma EnteredStep(c: Core, r: SfnReq, i: nat)
    requires WellIndexed(c) && (r.SfnReq? ==> Registered(c, r.spId)) && Admission(c, r) == Success
    requires PartitionIdx(c.rows, r.spId) == i != c.running
    ensures var f := FrameOf(c, r);
            && FrameOk(f) && f.before == c && f.callee == i
            && CallEffect(c, Called(c, r), f.callee, ArrivalPsp(f))
            && Called(c, r).psplim == (if f.act.direct then c.psplim else PartitionPsplim(c, f.callee))
    ensures Step(Start(c), Request(r)) == Machine(Called(c, r), [FrameOf(c, r)], NotHalted)
  {
    CalledRegisters(c, r);
    CalledEffect(c, r);
  }

  lemma EnteredMachine(c: Core, f: Frame, c': Core)
    requires ChainShape(c, [CORE_ID]) && DistinctIds(c) && c.initPhase && c.rows[CORE_ID].id == CORE_ID
    requires FrameOk(f) && f.before == c && f.callee != CORE_ID
    requires CallEffect(c, c', f.callee, ArrivalPsp(f))
    requires c'.psplim == if f.act.direct then c.psplim else PartitionPsplim(c, f.callee)
    ensures Inv(Machine(c', [f], NotHalted), c)
    ensures Chain(Machine(c', [f], NotHalted)) == [CORE_ID, f.callee]
  {
    var m := Machine(c', [f], NotHalted);
    CallLinks(f, c');
    PushExtendsChain(c, c', f.callee, ArrivalPsp(f), [CORE_ID]);
    EffectKeepsIds(c, c', f.callee, ArrivalPsp(f));
    assert Chain(m) == [CORE_ID] + [f.callee];
    assert LinkedAt(m, 0);
  }

  lemma {:induction false} InsideKeepsInv(m: Machine, body: seq<Action>, base: Core)
    requires Inv(m, base) && StaysInside(m, body, 0)
    ensures Inv(Run(m, body), base)
    decreases |body|
  {
    if body == [] {
    } else {
      StepKeepsInv(m, body[0], base);
      InsideKeepsInv(Step(m, body[0]), body[1..], base);
    }
  }

  lemma {:induction false} InsideKeepsStacks(m: Machine, body: seq<Action>, base: Core)
    requires Inv(m, base) && StaysInside(m, body, 0) && m.core.platform.level == Level3
    requires StacksReady(m) && BalancedRun(m, body)
    ensures StacksReady(Run(m, body))
    decreases |body|
  {
    if body == [] {
    } else {
      StepKeepsInv(m, body[0], base);
      StepKeepsStacks(m, body[0], base);
      InsideKeepsStacks(Step(m, body[0]), body[1..], base);
    }
  }

  /** Just before the init function returns, its own request is the only one suspended. */
  lemma InitInv(c: Core, i: nat, script: InitScript)
    requires BootingAt(c, i) && i < |c.rows| && c.rows[i].init != 0 && InitReturns(c, i, script)
    ensures var m := BeforeInitReturn(c, i, script);
            && Inv(m, c) && m.halt == NotHalted && m.frames == [FrameOf(c, InitRequest(c.rows[i]))]
            && Chain(m) == [CORE_ID, i]
  {
    var m1 := Step(Start(c), Request(InitRequest(c.rows[i])));
    EnteredInv(c, i);
    InsideKeepsInv(m1, script.body, c);
    EnclosedFrames(m1, script.body, 0);
    assert Chain(BeforeInitReturn(c, i, script)) == Chain(m1);
  }

  lemma EnteredStacks(c: Core, i: nat)
    requires BootingAt(c, i) && i < |c.rows| && c.rows[i].init != 0 && c.platform.level == Level3
    requires StacksAtTop(c)
    ensures StacksReady(Step(Start(c), Request(InitRequest(c.rows[i]))))
  {
    var r := InitRequest(c.rows[i]);
    InitRequestAccepted(c, i);
    assert StacksReady(Start(c));
    EnteredStep(c, r, i);
    CalledPsp(c, r);
    PushKeepsStacks(Start(c), FrameOf(c, r), Called(c, r));
    assert [] + [FrameOf(c, r)] == [FrameOf(c, r)];
  }

  lemma InitStacks(c: Core, i: nat, script: InitScript)
    requires BootingAt(c, i) && i < |c.rows| && c.rows[i].init != 0 && InitReturns(c, i, script)
    requires c.platform.level == Level3 && StacksAtTop(c) && InitBalanced(c, i, script)
    ensures var m := BeforeInitReturn(c, i, script);
            StacksReady(m) && m.core.psp == Top(m).entryPsp
  {
    EnteredInv(c, i);
    EnteredStacks(c, i);
    InsideKeepsStacks(Step(Start(c), Request(InitRequest(c.rows[i]))), script.body, c);
  }

  /** Once the init call is undone, the loop has one more initialised row. */
  lemma RestoredIsBooting(c: Core, i: nat, f: Frame, c': Core)
    requires BootingAt(c, i) && 2 <= i < |c.rows|
    requires f.before == c && f.callee == i && Restored(f, c') && WellIndexed(c')
    ensures BootingAt(WithState(c', i, Idle), i + 1)
  {
    RestoredRows(c, i, f, c');
    assert WithState(c', i, Idle).rows == c'.rows;
    var n := i + 1;
    forall j | 0 <= j < |c'.rows| && j != 1
      ensures BootRow(c', j, n)
    {
      assert BootRow(c, j, i);
    }
  }

  lemma RestoredRows(c: Core, i: nat, f: Frame, c': Core)
    requires WellIndexed(c) && c.running == CORE_ID && CORE_ID < |c.rows| && 2 <= i < |c.rows|
    requires f.before == c && f.callee == i && Restored(f, c')
    ensures forall j :: 0 <= j < |c.rows| ==> SameStatic(c'.rows[j], c.rows[j])
    ensures forall j :: 0 <= j < |c.rows| && j != i && j != CORE_ID ==>
              c'.rows[j].state == c.rows[j].state && c'.rows[j].caller == c.rows[j].caller
    ensures c'.rows[i].state == Idle && c'.rows[i].caller == INVALID_PARTITION_IDX
    ensures c'.rows[CORE_ID].state == Running && c'.rows[CORE_ID].caller == c.rows[CORE_ID].caller
  {
    forall j | 0 <= j < |c.rows|
      ensures SameStatic(c'.rows[j], c.rows[j])
      ensures c'.rows[j].state == RestoredRow(f, j).state && c'.rows[j].caller == RestoredRow(f, j).caller
    {
      assert Skeleton(c'.rows[j]) == Skeleton(RestoredRow(f, j));
      SkeletonFields(c'.rows[j], RestoredRow(f, j));
    }
  }

  /** The init function's return leaves every user stack at its top. */
  lemma InitReturnStacks(m: Machine, lr: u32)
    requires WellIndexed(m.core) && FramesLinked(m) && m.halt == NotHalted && |m.frames| == 1
    requires m.core.platform.level == Level3 && StacksReady(m) && m.core.psp == Top(m).entryPsp
    requires Top(m).before.running < 2
    ensures StacksAtTop(Step(m, Return(0, lr)).core)
  {
    TopLinked(m);
    ReturnRestores(Top(m), m.core, 0, lr);
    ReturnStep(m, 0, lr);
    ReturnedStackPtr(Top(m), m.core, 0, lr);
    var m' := Step(m, Return(0, lr));
    assert Chain(m') == Chain(m)[..1];
    PopKeepsStacks(m, m'.core);
  }

  /** The init function's own return closes the call the core made. */
  predicate Closes(c: Core, i: nat, script: InitScript)
    requires WellIndexed(c) && i < |c.rows|
  {
    var m := BeforeInitReturn(c, i, script);
    && c.initPhase && Registered(c, c.rows[i].id) && Admission(c, InitRequest(c.rows[i])) == Success
    && m.frames != [] && m.halt == NotHalted
    && Step(m, Return(0, script.lr)).frames == []
    && Step(m, Return(0, script.lr)).halt == NotHalted
  }

  lemma InitCloses(c: Core, i: nat, script: InitScript)
    requires BootingAt(c, i) && i < |c.rows| && c.rows[i].init != 0 && InitReturns(c, i, script)
    ensures Closes(c, i, script)
  {
    InitRequestAccepted(c, i);
    InitInv(c, i, script);
    InitReturnEmpties(BeforeInitReturn(c, i, script), 0, script.lr, c);
  }

  lemma AfterInitIsBooting(c: Core, i: nat, script: InitScript)
    requires BootingAt(c, i) && i < |c.rows| && c.rows[i].init != 0 && InitReturns(c, i, script)
    ensures BootingAt(AfterInit(c, i, script), i + 1)
  {
    var m := BeforeInitReturn(c, i, script);
    InitRequestAccepted(c, i);
    InitInv(c, i, script);
    InitReturnEmpties(m, 0, script.lr, c);
    RestoredIsBooting(c, i, Top(m), Step(m, Return(0, script.lr)).core);
  }

  lemma AfterRowIsBooting(c: Core, i: nat, script: InitScript)
    requires BootingAt(c, i) && i < |c.rows|
    requires c.rows[i].init != 0 ==> InitReturns(c, i, script)
    ensures BootingAt(AfterRow(c, i, script), i + 1)
  {
    if c.rows[i].init != 0 {
      AfterInitIsBooting(c, i, script);
    } else {
      var c', n := AfterRow(c, i, script), i + 1;
      forall j | 0 <= j < |c'.rows| && j != 1
        ensures BootRow(c', j, n)
      {
        assert BootRow(c, j, i);
      }
    }
  }

  lemma {:induction false} InitFromIsBooting(c: Core, i: nat, scripts: seq<InitScript>)
    requires BootingAt(c, i) && |c.rows| == |scripts| && AllInitsSucceed(c, i, scripts)
    ensures BootingAt(InitFrom(c, i, scripts), |scripts|)
    decreases |scripts| - i
  {
    if i == |c.rows| {
    } else {
      BootLoopStep(c, i, scripts, InitFrom(c, i, scripts));
      InitFromIsBooting(AfterRow(c, i, scripts[i]), i + 1, scripts);
    }
  }

  /** Where the boot loop stands: row `i` is next, and the rest of the loop leads to `last`. */
  ghost predicate BootLoop(c: Core, i: nat, scripts: seq<InitScript>, last: Core) {
    && BootingAt(c, i) && |c.rows| == |scripts| && AllInitsSucceed(c, i, scripts)
    && InitFrom(c, i, scripts) == last
  }

  lemma BootLoopStep(c: Core, i: nat, scripts: seq<InitScript>, last: Core)
    requires BootLoop(c, i, scripts, last) && i < |c.rows|
    ensures c.rows[i].init != 0 ==> InitReturns(c, i, scripts[i])
    ensures BootLoop(AfterRow(c, i, scripts[i]), i + 1, scripts, last)
  {
    AfterRowIsBooting(c, i, scripts[i]);
  }

  lemma HandOverIsBooted(c: Core)
    requires BootingAt(c, |c.rows|)
    ensures Booted(HandOver(c))
  {
    forall j | 0 <= j < |c.rows| && j != 1
      ensures c.rows[j].state == Idle && c.rows[j].caller == INVALID_PARTITION_IDX
    {
      assert BootRow(c, j, |c.rows|);
    }
  }

  /** For every partition list that fits and every behaviour of init functions that all succeed, nested
      calls into already initialised partitions included, boot ends with the non-secure partition the
      only one running, the core partition closed, all others idle and uncalled, and the lock free. */
  lemma BootEndsReady(c: Core, stackMem: u32, stackTop: u32, decls: seq<PartitionDecl>, scripts: seq<InitScript>)
    requires |decls| + 2 == |scripts| <= MAX_PARTITIONS && DistinctDecls(decls)
    requires AllInitsSucceed(Powered(c, stackMem, stackTop, decls), 0, scripts)
    ensures Booted(HandOver(InitFrom(Powered(c, stackMem, stackTop, decls), 0, scripts)))
  {
    var powered := Powered(c, stackMem, stackTop, decls);
    PoweredIsBooting(c, stackMem, stackTop, decls);
    InitFromIsBooting(powered, 0, scripts);
    HandOverIsBooted(InitFrom(powered, 0, scripts));
  }

  // ---- Stacks after boot

  lemma AfterInitStacks(c: Core, i: nat, script: InitScript)
    requires BootingAt(c, i) && i < |c.rows| && c.rows[i].init != 0 && InitReturns(c, i, script)
    requires c.platform.level == Level3 && StacksAtTop(c) && InitBalanced(c, i, script)
    ensures StacksAtTop(AfterInit(c, i, script))
  {
    ReturnedStacks(c, i, script);
    StateLeavesStacks(Step(BeforeInitReturn(c, i, script), Return(0, script.lr)).core, i, Idle);
  }

  lemma ReturnedStacks(c: Core, i: nat, script: InitScript)
    requires BootingAt(c, i) && i < |c.rows| && c.rows[i].init != 0 && InitReturns(c, i, script)
    requires c.platform.level == Level3 && StacksAtTop(c) && InitBalanced(c, i, script)
    ensures StacksAtTop(Step(BeforeInitReturn(c, i, script), Return(0, script.lr)).core)
  {
    InitInv(c, i, script);
    InitStacks(c, i, script);
    InitReturnStacks(BeforeInitReturn(c, i, script), script.lr);
  }

  lemma StateLeavesStacks(c: Core, i: nat, state: PartitionState)
    requires i < |c.rows| <= MAX_PARTITIONS && StacksAtTop(c)
    ensures StacksAtTop(WithState(c, i, state))
  {
  }

  lemma AfterRowStacks(c: Core, i: nat, script: InitScript)
    requires BootingAt(c, i) && i < |c.rows| && c.platform.level == Level3 && StacksAtTop(c)
    requires c.rows[i].init != 0 ==> InitReturns(c, i, script) && InitBalanced(c, i, script)
    ensures StacksAtTop(AfterRow(c, i, script))
  {
    if c.rows[i].init != 0 {
      AfterInitStacks(c, i, script);
    }
  }

  lemma {:induction false} InitFromStacks(c: Core, i: nat, scripts: seq<InitScript>)
    requires BootingAt(c, i) && |c.rows| == |scripts| && c.platform.level == Level3 && StacksAtTop(c)
    requires AllInitsSucceed(c, i, scripts) && AllInitsBalanced(c, i, scripts)
    ensures StacksAtTop(InitFrom(c, i, scripts))
    decreases |scripts| - i
  {
    if i == |c.rows| {
    } else {
      AfterRowIsBooting(c, i, scripts[i]);
      AfterRowStacks(c, i, scripts[i]);
      InitFromStacks(AfterRow(c, i, scripts[i]), i + 1, scripts);
    }
  }

  /** At level 3, when the init functions are stack-balanced as well, boot leaves every user stack at its top. */
  lemma BalancedBootLeavesStacksAtTop(c: Core, stackMem: u32, stackTop: u32, decls: seq<PartitionDecl>,
                                      scripts: seq<InitScript>)
    requires |decls| + 2 == |scripts| <= MAX_PARTITIONS && DistinctDecls(decls) && c.platform.level == Level3
    requires AllInitsSucceed(Powered(c, stackMem, stackTop, decls), 0, scripts)
    requires AllInitsBalanced(Powered(c, stackMem, stackTop, decls), 0, scripts)
    ensures StacksAtTop(HandOver(InitFrom(Powered(c, stackMem, stackTop, decls), 0, scripts)))
  {
    var powered := Powered(c, stackMem, stackTop, decls);
    PoweredIsBooting(c, stackMem, stackTop, decls);
    PoweredStacks(c, stackMem, stackTop, decls);
    InitFromStacks(powered, 0, scripts);
    HandOverLeavesStacks(InitFrom(powered, 0, scripts));
  }

  lemma PoweredStacks(c: Core, stackMem: u32, stackTop: u32, decls: seq<PartitionDecl>)
    requires |decls| + 2 <= MAX_PARTITIONS && c.platform.level == Level3
    ensures StacksAtTop(Powered(c, stackMem, stackTop, decls))
  {
  }

  lemma HandOverLeavesStacks(c: Core)
    requires 2 <= |c.rows| <= MAX_PARTITIONS && StacksAtTop(c)
    ensures StacksAtTop(HandOver(c))
  {
  }
}
