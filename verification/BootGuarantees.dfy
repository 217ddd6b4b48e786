/** What boot hands over besides partition states: the rows as the partition list declares them, the stack
    registers, the exception register and the privilege of thread mode; and how long the first of these last. */
module BootGuarantees {
  import opened Words
  import opened PartitionDb
  import opened CallMachine
  import opened CallRuns
  import opened CallTheorems
  import opened CallGuarantees
  import opened CallAnswers
  import opened Boot

  // ---- Rows as declared

  /** The row carries what its declaration says; stack areas are recorded at level 3 only. */
  predicate Declares(level: Level, d: PartitionDecl, row: Row) {
    && row.id == d.id && row.secure == d.secure && row.trusted == d.trusted && row.init == d.init
    && (level == Level3 ==> row.stackBottom == d.stackBottom && row.stackTop == d.stackTop)
  }

  /** The two internal rows, then one for each entry of the list, in order. */
  predicate AsDeclared(level: Level, rows: seq<Row>, stackMem: u32, stackTop: u32, decls: seq<PartitionDecl>) {
    && |rows| == |decls| + 2
    && Declares(level, PartitionDecl(0, false, false, 0, stackMem, stackTop), rows[0])
    && Declares(level, PartitionDecl(1, true, true, 0, 0, 0), rows[1])
    && forall k :: 0 <= k < |decls| ==> Declares(level, decls[k], rows[k + 2])
  }

  ghost predicate SameStatics(rows: seq<Row>, rows': seq<Row>) {
    |rows'| == |rows| && forall i :: 0 <= i < |rows| ==> SameStatic(rows'[i], rows[i])
  }

  lemma StaticsStayDeclared(level: Level, rows: seq<Row>, rows': seq<Row>, stackMem: u32, stackTop: u32,
                            decls: seq<PartitionDecl>)
    requires AsDeclared(level, rows, stackMem, stackTop, decls) && SameStatics(rows, rows')
    ensures AsDeclared(level, rows', stackMem, stackTop, decls)
  {
    assert SameStatic(rows'[0], rows[0]) && SameStatic(rows'[1], rows[1]);
    forall k | 0 <= k < |decls|
      ensures Declares(level, decls[k], rows'[k + 2])
    {
      assert Declares(level, decls[k], rows[k + 2]) && SameStatic(rows'[k + 2], rows[k + 2]);
    }
  }

  lemma InitialRowsDeclared(level: Level, stackMem: u32, stackTop: u32, decls: seq<PartitionDecl>)
    ensures AsDeclared(level, InitialRows(level, stackMem, stackTop, decls), stackMem, stackTop, decls)
  {
    var rows := InitialRows(level, stackMem, stackTop, decls);
    forall k | 0 <= k < |decls|
      ensures Declares(level, decls[k], rows[k + 2])
    {
      assert rows[k + 2] == DeclaredRow(level, decls[k]);
    }
  }

  // ---- Inside an init function

  /** No suspended request came from the non-secure side. */
  predicate AllFromSecure(m: Machine) {
    forall k :: 0 <= k < |m.frames| ==> !m.frames[k].act.nsCaller
  }

  /** The action is a return out of an untrusted partition. */
  predicate LeavesUntrusted(m: Machine, a: Action)
    requires WellIndexed(m.core)
  {
    && a.Return? && m.halt == NotHalted && m.frames != [] && Step(m, a).halt == NotHalted
    && m.core.running < |m.core.rows| && !m.core.rows[m.core.running].trusted
  }

  predicate NoneLeavesUntrusted(m: Machine, actions: seq<Action>)
    requires WellIndexed(m.core)
    decreases |actions|
  {
    actions == [] || (!LeavesUntrusted(m, actions[0]) && NoneLeavesUntrusted(Step(m, actions[0]), actions[1..]))
  }

  lemma CalledInInit(c: Core, r: SfnReq)
    requires WellIndexed(c) && (r.SfnReq? ==> Registered(c, r.spId)) && Admission(c, r) == Success
    requires c.initPhase && c.lock != 0
    ensures !r.nsCaller && Called(c, r).aircr == c.aircr
    ensures c.rows[c.running].id != CORE_ID ==> Called(c, r).unprivileged == c.unprivileged
  {
    PushedRegister(c, r);
  }

  lemma ReturnedInInit(c: Core, act: Activation, retVal: int, lr: u32)
    requires WellIndexed(c) && c.initPhase && !act.nsCaller && Returned(c, act, retVal, lr).Back?
    requires c.running < |c.rows|
    ensures var c' := Returned(c, act, retVal, lr).core;
            && c'.aircr == c.aircr
            && c'.unprivileged == (c.unprivileged && !(c.platform.level == Level3 && !c.rows[c.running].trusted))
  {
    var c1 := if act.direct then c else EnterSvc(c);
    assert PopCheck(c1) == Success;
    PoppedInInit(c1);
  }

  lemma PoppedInInit(c: Core)
    requires WellIndexed(c) && c.initPhase && PopCheck(c) == Success
    ensures PopLock(c).aircr == c.aircr
    ensures PopLock(c).unprivileged == (c.unprivileged && !(c.platform.level == Level3 && !c.rows[c.running].trusted))
  {
  }

  /** Inside an init function no action touches the exception register, and only a return out of an untrusted
      partition changes the privilege of thread mode. */
  lemma StepInInit(m: Machine, a: Action, base: Core)
    requires Inv(m, base) && m.core.initPhase && AllFromSecure(m)
    ensures AllFromSecure(Step(m, a)) && Step(m, a).core.aircr == m.core.aircr
    ensures Step(m, a).core.unprivileged ==
            (m.core.unprivileged && !(m.core.platform.level == Level3 && LeavesUntrusted(m, a)))
  {
    if m.halt == NotHalted {
      match a
      case Request(r) =>
        RequestInInit(m, r);
      case Return(retVal, lr) =>
        if m.frames != [] {
          ReturnInInit(m, retVal, lr);
        }
      case SetBuffer(_) =>
        LocalStep(m, a);
        LocalInInit(m, a);
      case MoveStack(_) =>
        LocalStep(m, a);
        LocalInInit(m, a);
    }
  }

  lemma RequestInInit(m: Machine, r: SfnReq)
    requires ChainShape(m.core, Chain(m)) && DistinctIds(m.core) && m.core.initPhase && m.frames != []
    requires Chain(m)[0] == CORE_ID && m.core.rows[CORE_ID].id == CORE_ID && m.halt == NotHalted && AllFromSecure(m)
    ensures var m' := Step(m, Request(r));
            AllFromSecure(m') && m'.core.aircr == m.core.aircr && m'.core.unprivileged == m.core.unprivileged
  {
    if Enters(m, Request(r)) {
      var ch := Chain(m);
      assert ch[0] != ch[|ch| - 1];
      assert m.core.rows[m.core.running].id != m.core.rows[CORE_ID].id;
      CalledInInit(m.core, r);
    }
  }

  lemma ReturnInInit(m: Machine, retVal: int, lr: u32)
    requires WellIndexed(m.core) && FramesLinked(m) && m.core.initPhase && m.frames != [] && m.halt == NotHalted
    requires AllFromSecure(m)
    ensures var m' := Step(m, Return(retVal, lr));
            && AllFromSecure(m') && m'.core.aircr == m.core.aircr
            && m'.core.unprivileged ==
               (m.core.unprivileged && !(m.core.platform.level == Level3 && LeavesUntrusted(m, Return(retVal, lr))))
  {
    TopLinked(m);
    if !Top(m).act.direct && ReservedValue(retVal) {
      ReservedStep(m, retVal, lr);
    } else {
      ReturnRestores(Top(m), m.core, retVal, lr);
      ReturnStep(m, retVal, lr);
      ReturnedInInit(m.core, Top(m).act, retVal, lr);
    }
  }

  lemma LocalInInit(m: Machine, a: Action)
    requires WellIndexed(m.core) && (a.SetBuffer? || a.MoveStack?)
    ensures Step(m, a).core.aircr == m.core.aircr && Step(m, a).core.unprivileged == m.core.unprivileged
  {
  }

  lemma {:induction false} RunInInit(m: Machine, body: seq<Action>, base: Core)
    requires Inv(m, base) && m.core.initPhase && AllFromSecure(m) && StaysInside(m, body, 0)
    ensures AllFromSecure(Run(m, body)) && Run(m, body).core.aircr == m.core.aircr
    ensures Run(m, body).core.unprivileged ==
            (m.core.unprivileged && (m.core.platform.level == Level3 ==> NoneLeavesUntrusted(m, body)))
    decreases |body|
  {
    if body == [] {
    } else {
      StepInInit(m, body[0], base);
      StepKeepsInv(m, body[0], base);
      RunInInit(Step(m, body[0]), body[1..], base);
    }
  }

  lemma EnteredInInit(c: Core, i: nat)
    requires BootingAt(c, i) && i < |c.rows| && c.rows[i].init != 0
    ensures var m := Step(Start(c), Request(InitRequest(c.rows[i])));
            && AllFromSecure(m) && m.core.aircr == c.aircr
            && m.core.unprivileged == (c.unprivileged || (c.platform.level == Level3 && !c.rows[i].trusted))
  {
    var r := InitRequest(c.rows[i]);
    InitRequestAccepted(c, i);
    assert BootRow(c, i, i);
    PushedRegister(c, r);
  }

  /** An init function that boot enters in privileged thread mode runs unprivileged if and only if isolation is at
      level 3, its partition is untrusted, and no call it made returned from an untrusted partition so far. */
  lemma InitPrivilegeExactly(c: Core, i: nat, body: seq<Action>)
    requires BootingAt(c, i) && i < |c.rows| && c.rows[i].init != 0 && !c.unprivileged
    requires StaysInside(Step(Start(c), Request(InitRequest(c.rows[i]))), body, 0)
    ensures
      var entered := Step(Start(c), Request(InitRequest(c.rows[i])));
      Run(entered, body).core.unprivileged <==>
        c.platform.level == Level3 && !c.rows[i].trusted && NoneLeavesUntrusted(entered, body)
  {
    EnteredInv(c, i);
    EnteredInInit(c, i);
    RunInInit(Step(Start(c), Request(InitRequest(c.rows[i]))), body, c);
  }

  // ---- What one round of the init loop leaves alone

  /** Stacks, exception register and static data are as before, and privileged thread mode is back. */
  ghost predicate RoundKeeps(c: Core, c': Core) {
    && c'.platform == c.platform && c'.psp == c.psp && c'.psplim == c.psplim && c'.aircr == c.aircr
    && (!c.unprivileged ==> !c'.unprivileged) && SameStatics(c.rows, c'.rows)
  }

  lemma InitKeeps(c: Core, i: nat, script: InitScript)
    requires BootingAt(c, i) && i < |c.rows| && c.rows[i].init != 0 && InitReturns(c, i, script)
    ensures RoundKeeps(c, AfterInit(c, i, script))
  {
    var m := BeforeInitReturn(c, i, script);
    InitInv(c, i, script);
    ReturnedRegisters(c, i, script);
    InitReturnEmpties(m, 0, script.lr, c);
    InitRequestAccepted(c, i);
    TopLinked(m);
    RestoredRows(c, i, Top(m), Step(m, Return(0, script.lr)).core);
    StateKeeps(c, Step(m, Return(0, script.lr)).core, i);
  }

  lemma StateKeeps(c: Core, c': Core, i: nat)
    requires RoundKeeps(c, c') && i < |c'.rows| <= MAX_PARTITIONS
    ensures RoundKeeps(c, WithState(c', i, Idle))
  {
  }

  lemma ReturnedRegisters(c: Core, i: nat, script: InitScript)
    requires BootingAt(c, i) && i < |c.rows| && c.rows[i].init != 0 && InitReturns(c, i, script)
    ensures var c' := Step(BeforeInitReturn(c, i, script), Return(0, script.lr)).core;
            c'.aircr == c.aircr && (!c.unprivileged ==> !c'.unprivileged)
  {
    var m := BeforeInitReturn(c, i, script);
    EnteredInv(c, i);
    EnteredInInit(c, i);
    RunInInit(Step(Start(c), Request(InitRequest(c.rows[i]))), script.body, c);
    InitInv(c, i, script);
    InitReturnEmpties(m, 0, script.lr, c);
    StepInInit(m, Return(0, script.lr), c);
    TopLinked(m);
    CallKeepsStatic(Top(m), m.core, i);
  }

  lemma RowKeeps(c: Core, i: nat, script: InitScript)
    requires BootingAt(c, i) && i < |c.rows|
    requires c.rows[i].init != 0 ==> InitReturns(c, i, script)
    ensures RoundKeeps(c, AfterRow(c, i, script))
  {
    if c.rows[i].init != 0 {
      InitKeeps(c, i, script);
    }
  }

  lemma {:induction false} InitFromKeeps(c: Core, i: nat, scripts: seq<InitScript>)
    requires BootingAt(c, i) && |c.rows| == |scripts| && AllInitsSucceed(c, i, scripts)
    ensures RoundKeeps(c, InitFrom(c, i, scripts))
    decreases |scripts| - i
  {
    if i == |c.rows| {
    } else {
      var next, last := AfterRow(c, i, scripts[i]), InitFrom(c, i, scripts);
      BootLoopStep(c, i, scripts, last);
      RowKeeps(c, i, scripts[i]);
      InitFromKeeps(next, i + 1, scripts);
      KeepsTransitive(c, next, last);
    }
  }

  lemma KeepsTransitive(a: Core, b: Core, c: Core)
    requires RoundKeeps(a, b) && RoundKeeps(b, c)
    ensures RoundKeeps(a, c)
  {
    forall i | 0 <= i < |a.rows|
      ensures SameStatic(c.rows[i], a.rows[i])
    {
      assert SameStatic(c.rows[i], b.rows[i]) && SameStatic(b.rows[i], a.rows[i]);
    }
  }

  // ---- The handed-over core

  /** Boot's last core. */
  function HandedOver(c: Core, stackMem: u32, stackTop: u32, decls: seq<PartitionDecl>, scripts: seq<InitScript>): Core
    requires |decls| + 2 == |scripts| <= MAX_PARTITIONS
  {
    HandOver(InitFrom(Powered(c, stackMem, stackTop, decls), 0, scripts))
  }

  /** A boot whose inits all succeed ends with every row as declared, the stack pointer and the exception register
      it started with, the stack limit at the bottom of the main thread's stack, and thread mode privileged if it
      was so at the start. */
  lemma BootHandsOver(c: Core, stackMem: u32, stackTop: u32, decls: seq<PartitionDecl>, scripts: seq<InitScript>)
    requires |decls| + 2 == |scripts| <= MAX_PARTITIONS && DistinctDecls(decls)
    requires AllInitsSucceed(Powered(c, stackMem, stackTop, decls), 0, scripts)
    ensures
      var c' := HandedOver(c, stackMem, stackTop, decls, scripts);
      && AsDeclared(c.platform.level, c'.rows, stackMem, stackTop, decls)
      && c'.platform == c.platform && c'.psp == c.psp && c'.psplim == stackMem && c'.aircr == c.aircr
      && (!c.unprivileged ==> !c'.unprivileged)
  {
    var powered := Powered(c, stackMem, stackTop, decls);
    PoweredIsBooting(c, stackMem, stackTop, decls);
    PoweredDeclared(c, stackMem, stackTop, decls);
    InitFromKeeps(powered, 0, scripts);
    HandOverKeeps(InitFrom(powered, 0, scripts));
    KeepsTransitive(powered, InitFrom(powered, 0, scripts), HandedOver(c, stackMem, stackTop, decls, scripts));
    StaticsStayDeclared(c.platform.level, powered.rows, HandedOver(c, stackMem, stackTop, decls, scripts).rows,
                        stackMem, stackTop, decls);
  }

  lemma PoweredDeclared(c: Core, stackMem: u32, stackTop: u32, decls: seq<PartitionDecl>)
    requires |decls| + 2 <= MAX_PARTITIONS
    ensures AsDeclared(c.platform.level, Powered(c, stackMem, stackTop, decls).rows, stackMem, stackTop, decls)
  {
    var rows := InitialRows(c.platform.level, stackMem, stackTop, decls);
    InitialRowsDeclared(c.platform.level, stackMem, stackTop, decls);
    StaticsStayDeclared(c.platform.level, rows, rows[1 := rows[1].(state := Running)], stackMem, stackTop, decls);
  }

  lemma HandOverKeeps(c: Core)
    requires 2 <= |c.rows| <= MAX_PARTITIONS
    ensures RoundKeeps(c, HandOver(c))
  {
  }

  // ---- Through every run

  /** The rows stay as the list declares them in every state of every run after boot. */
  lemma DeclaredInEveryState(c: Core, stackMem: u32, stackTop: u32, decls: seq<PartitionDecl>,
                             scripts: seq<InitScript>, actions: seq<Action>)
    requires |decls| + 2 == |scripts| <= MAX_PARTITIONS && DistinctDecls(decls)
    requires AllInitsSucceed(Powered(c, stackMem, stackTop, decls), 0, scripts)
    ensures WellIndexed(HandedOver(c, stackMem, stackTop, decls, scripts))
    ensures AsDeclared(c.platform.level, Run(Start(HandedOver(c, stackMem, stackTop, decls, scripts)), actions).core.rows,
                       stackMem, stackTop, decls)
  {
    var base := HandedOver(c, stackMem, stackTop, decls, scripts);
    BootEndsReady(c, stackMem, stackTop, decls, scripts);
    BootHandsOver(c, stackMem, stackTop, decls, scripts);
    var rows := Run(Start(base), actions).core.rows;
    forall i | 0 <= i < |base.rows|
      ensures |rows| == |base.rows| && SameStatic(rows[i], base.rows[i])
    {
      StaticInEveryState(base, actions, i);
    }
    assert |base.rows| > 0;
    StaticsStayDeclared(c.platform.level, base.rows, rows, stackMem, stackTop, decls);
  }

  /** At level 3, with stack-balanced init and secure functions, an accepted request for the k-th entry of the list
      starts that partition at its declared stack top, bounded by its declared stack bottom. */
  lemma CalleeStackAsDeclared(c: Core, stackMem: u32, stackTop: u32, decls: seq<PartitionDecl>,
                              scripts: seq<InitScript>, actions: seq<Action>, r: SfnReq, k: nat)
    requires |decls| + 2 == |scripts| <= MAX_PARTITIONS && DistinctDecls(decls) && c.platform.level == Level3
    requires AllInitsSucceed(Powered(c, stackMem, stackTop, decls), 0, scripts)
    requires AllInitsBalanced(Powered(c, stackMem, stackTop, decls), 0, scripts)
    requires WellIndexed(HandedOver(c, stackMem, stackTop, decls, scripts))
    requires BalancedRun(Start(HandedOver(c, stackMem, stackTop, decls, scripts)), actions)
    requires var m := Run(Start(HandedOver(c, stackMem, stackTop, decls, scripts)), actions);
             m.halt == NotHalted && Enters(m, Request(r)) && k < |decls| && r.spId == decls[k].id
    ensures var m := Run(Start(HandedOver(c, stackMem, stackTop, decls, scripts)), actions);
            var c' := Step(m, Request(r)).core;
            c'.running == k + 2 && c'.psp == decls[k].stackTop && c'.psplim == decls[k].stackBottom
  {
    var base := HandedOver(c, stackMem, stackTop, decls, scripts);
    HandedOverReady(c, stackMem, stackTop, decls, scripts);
    assert Declares(Level3, decls[k], base.rows[k + 2]);
    CalleeStackOf(base, actions, r, k + 2);
  }

  lemma HandedOverReady(c: Core, stackMem: u32, stackTop: u32, decls: seq<PartitionDecl>, scripts: seq<InitScript>)
    requires |decls| + 2 == |scripts| <= MAX_PARTITIONS && DistinctDecls(decls) && c.platform.level == Level3
    requires AllInitsSucceed(Powered(c, stackMem, stackTop, decls), 0, scripts)
    requires AllInitsBalanced(Powered(c, stackMem, stackTop, decls), 0, scripts)
    ensures var base := HandedOver(c, stackMem, stackTop, decls, scripts);
            && Booted(base) && StacksAtTop(base) && base.platform.level == Level3
            && AsDeclared(Level3, base.rows, stackMem, stackTop, decls)
  {
    BootEndsReady(c, stackMem, stackTop, decls, scripts);
    BalancedBootLeavesStacksAtTop(c, stackMem, stackTop, decls, scripts);
    BootHandsOver(c, stackMem, stackTop, decls, scripts);
  }

  lemma CalleeStackOf(base: Core, actions: seq<Action>, r: SfnReq, i: nat)
    requires Booted(base) && base.platform.level == Level3 && StacksAtTop(base) && BalancedRun(Start(base), actions)
    requires Run(Start(base), actions).halt == NotHalted && Enters(Run(Start(base), actions), Request(r))
    requires 2 <= i < |base.rows| && r.spId == base.rows[i].id
    ensures var c' := Step(Run(Start(base), actions), Request(r)).core;
            c'.running == i && c'.psp == base.rows[i].stackTop && c'.psplim == base.rows[i].stackBottom
  {
    var m := Run(Start(base), actions);
    CalleeIs(base, actions, r, i);
    StaticInEveryState(base, actions, i);
    AdmittedExactly(m.core, r);
    StacksReadyInEveryState(base, actions, i);
    CalleeStartsAt(base, actions, r);
  }

  lemma CalleeIs(base: Core, actions: seq<Action>, r: SfnReq, i: nat)
    requires Booted(base) && Enters(Run(Start(base), actions), Request(r)) && i < |base.rows| && r.spId == base.rows[i].id
    ensures PartitionIdx(Run(Start(base), actions).core.rows, r.spId) == i
    ensures !Run(Start(base), actions).core.initPhase
  {
    BootedInv(base);
    RunKeepsInv(Start(base), actions, base);
    StaticInEveryState(base, actions, i);
    IdIsIndex(Run(Start(base), actions).core, i, 0);
  }
}
