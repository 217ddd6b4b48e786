/** Stack, share-mode and exception-register guarantees over runs of the secure call machine,
    and what a whole nested call gives back. */
module CallGuarantees {
  import opened Words
  import opened Distinct
  import opened PartitionDb
  import opened CallMachine
  import opened CallRuns
  import opened CallTheorems

  // ---- A whole nested call

  /** The run of `actions` stays strictly inside the call that is `depth` frames deep. */
  predicate StaysInside(m: Machine, actions: seq<Action>, depth: nat)
    requires WellIndexed(m.core)
    decreases |actions|
  {
    |m.frames| > depth && (actions == [] || StaysInside(Step(m, actions[0]), actions[1..], depth))
  }

  lemma StepKeepsLowerFrames(m: Machine, a: Action, depth: nat)
    requires WellIndexed(m.core) && |m.frames| > depth && |Step(m, a).frames| > depth
    ensures Step(m, a).frames[..depth + 1] == m.frames[..depth + 1]
  {
    assert Step(m, a).frames == m.frames
        || (|Step(m, a).frames| == |m.frames| + 1 && Step(m, a).frames[..|m.frames|] == m.frames)
        || Step(m, a).frames == m.frames[..|m.frames| - 1];
  }

  lemma {:induction false} InsideKeepsLowerFrames(m: Machine, actions: seq<Action>, depth: nat)
    requires WellIndexed(m.core) && StaysInside(m, actions, depth)
    ensures |Run(m, actions).frames| > depth
    ensures Run(m, actions).frames[..depth + 1] == m.frames[..depth + 1]
    decreases |actions|
  {
    if actions == [] {
    } else {
      StepKeepsLowerFrames(m, actions[0], depth);
      InsideKeepsLowerFrames(Step(m, actions[0]), actions[1..], depth);
    }
  }

  /** Whatever runs between an accepted request and its matching return, nested calls included, the
      return is not halted by the unlock or link-register checks and gives the caller back every
      partition state and caller link, the running index, the lock, the stack limit, the share modes
      recorded by the caller and its callers, and, where the call switched stacks, the stack pointer. */
  lemma NestedCallRestores(m: Machine, r: SfnReq, body: seq<Action>, retVal: int, lr: u32, base: Core)
    requires Inv(m, base) && !m.core.initPhase && m.halt == NotHalted
    requires (r.SfnReq? ==> Registered(m.core, r.spId)) && Admission(m.core, r) == Success
    requires StaysInside(Step(m, Request(r)), body, |m.frames|)
    requires var inside := Run(Step(m, Request(r)), body);
             |inside.frames| == |m.frames| + 1 && inside.halt == NotHalted
    requires !SwitchesStack(m.core, r) || !ReservedValue(retVal)
    ensures
      var after := Step(Run(Step(m, Request(r)), body), Return(retVal, lr));
      && after.halt == NotHalted && after.frames == m.frames
      && SameSkeleton(after.core, m.core)
      && (SwitchesStack(m.core, r) ==> after.core.psp == m.core.psp)
      && SameShares(after.core, m.core, Chain(m))
  {
    var f := FrameOf(m.core, r);
    CallKeepsCallerShares(m, r, body, retVal, lr, base);
    RequestKeepsInv(m, r, base);
    EnclosedRun(m, f, Step(m, Request(r)), body, base);
    MatchedReturn(m, f, Run(Step(m, Request(r)), body), retVal, lr, base);
  }

  /** The same in every run after boot: a call made at any point of any run is undone by its return. At level 3
      a secure caller also gets the share mode programmed into hardware back. */
  lemma CallRestoresInEveryRun(base: Core, before: seq<Action>, r: SfnReq, body: seq<Action>, retVal: int, lr: u32)
    requires Booted(base)
    requires var m := Run(Start(base), before);
             && m.halt == NotHalted && (r.SfnReq? ==> Registered(m.core, r.spId)) && Admission(m.core, r) == Success
             && StaysInside(Step(m, Request(r)), body, |m.frames|)
             && |Run(Step(m, Request(r)), body).frames| == |m.frames| + 1
             && Run(Step(m, Request(r)), body).halt == NotHalted
             && (!SwitchesStack(m.core, r) || !ReservedValue(retVal))
    ensures
      var m := Run(Start(base), before);
      var after := Step(Run(Step(m, Request(r)), body), Return(retVal, lr));
      && after.halt == NotHalted && after.frames == m.frames
      && SameSkeleton(after.core, m.core)
      && (SwitchesStack(m.core, r) ==> after.core.psp == m.core.psp)
      && SameShare(after.core, m.core, m.core.running)
      && (m.core.platform.level == Level3 && m.core.rows[m.core.running].secure ==> after.core.hwShare == m.core.hwShare)
  {
    BootedInv(base);
    RunKeepsInv(Start(base), before, base);
    var m := Run(Start(base), before);
    NestedCallRestores(m, r, body, retVal, lr, base);
    var after := Step(Run(Step(m, Request(r)), body), Return(retVal, lr));
    assert SameShare(after.core, m.core, Chain(m)[|m.frames|]);
    if base.platform.level == Level3 {
      ShareProgrammedInEveryState(base, before);
      CallIsRun(base, before, r, body, retVal, lr);
      ShareProgrammedInEveryState(base, before + [Request(r)] + body + [Return(retVal, lr)]);
      SameProgrammed(m.core, after.core);
    }
  }

  lemma SameProgrammed(c: Core, c': Core)
    requires SameSkeleton(c', c) && c.running < |c.rows| && SameShare(c', c, c.running)
    requires ShareProgrammed(c) && ShareProgrammed(c')
    ensures c.rows[c.running].secure ==> c'.hwShare == c.hwShare
  {
    assert Skeleton(c'.rows[c.running]) == Skeleton(c.rows[c.running]);
  }

  lemma {:induction false} RunConcat(m: Machine, xs: seq<Action>, ys: seq<Action>)
    requires WellIndexed(m.core)
    ensures Run(m, xs + ys) == Run(Run(m, xs), ys)
    decreases |xs|
  {
    if xs == [] {
      assert xs + ys == ys;
    } else {
      RunConcat(Step(m, xs[0]), xs[1..], ys);
      assert (xs + ys)[0] == xs[0] && (xs + ys)[1..] == xs[1..] + ys;
    }
  }

  lemma RunOne(m: Machine, a: Action)
    requires WellIndexed(m.core)
    ensures Run(m, [a]) == Step(m, a)
  {
    assert [a][1..] == [];
  }

  lemma CallIsRun(base: Core, before: seq<Action>, r: SfnReq, body: seq<Action>, retVal: int, lr: u32)
    requires WellIndexed(base)
    ensures Run(Start(base), before + [Request(r)] + body + [Return(retVal, lr)]) ==
            Step(Run(Step(Run(Start(base), before), Request(r)), body), Return(retVal, lr))
  {
    var m := Start(base);
    RunConcat(m, before, [Request(r)]);
    RunOne(Run(m, before), Request(r));
    RunConcat(m, before + [Request(r)], body);
    RunConcat(m, before + [Request(r)] + body, [Return(retVal, lr)]);
    RunOne(Run(m, before + [Request(r)] + body), Return(retVal, lr));
  }

  // ---- Share modes of suspended callers

  /** The partitions `ps` record the same share modes in both states. */
  ghost predicate SameShares(c: Core, c0: Core, ps: seq<u32>) {
    |c.rows| == |c0.rows| && forall k :: 0 <= k < |ps| ==> SameShare(c, c0, ps[k])
  }

  predicate SameShare(c: Core, c0: Core, p: u32) {
    p < |c.rows| == |c0.rows| && c.rows[p].share == c0.rows[p].share
  }

  /** The one row whose share mode an action can change. */
  function Touched(m: Machine, a: Action): u32
    requires WellIndexed(m.core)
  {
    if Enters(m, a) then PartitionIdx(m.core.rows, a.req.spId) else m.core.running
  }

  predicate Enters(m: Machine, a: Action)
    requires WellIndexed(m.core)
  {
    a.Request? && (a.req.SfnReq? ==> Registered(m.core, a.req.spId)) && Admission(m.core, a.req) == Success
  }

  ghost predicate OthersKeepShare(c: Core, c': Core, touched: u32) {
    && |c'.rows| == |c.rows|
    && forall i :: 0 <= i < |c.rows| && i != touched ==> c'.rows[i].share == c.rows[i].share
  }

  lemma CallKeepsShares(c: Core, c': Core, callee: u32, psp: u32)
    requires CallEffect(c, c', callee, psp)
    ensures OthersKeepShare(c, c', callee)
  {
  }

  lemma PopKeepsShares(c: Core, c': Core)
    requires PopEffect(c, c')
    ensures OthersKeepShare(c, c', c.running)
  {
  }

  lemma ReturnShares(m: Machine, retVal: int, lr: u32)
    requires WellIndexed(m.core) && FramesLinked(m) && m.halt == NotHalted && m.frames != []
    ensures OthersKeepShare(m.core, Step(m, Return(retVal, lr)).core, m.core.running)
  {
    if Top(m).act.direct || !ReservedValue(retVal) {
      TopLinked(m);
      ReturnRestores(Top(m), m.core, retVal, lr);
      ReturnStep(m, retVal, lr);
      PopKeepsShares(m.core, Returned(m.core, Top(m).act, retVal, lr).core);
    } else {
      ReservedStep(m, retVal, lr);
    }
  }

  lemma LocalShares(m: Machine, a: Action)
    requires WellIndexed(m.core) && (a.SetBuffer? || a.MoveStack?)
    ensures OthersKeepShare(m.core, Step(m, a).core, m.core.running)
  {
  }

  lemma RequestShares(m: Machine, r: SfnReq)
    requires WellIndexed(m.core) && m.halt == NotHalted && Enters(m, Request(r))
    requires PartitionIdx(m.core.rows, r.spId) != m.core.running
    ensures OthersKeepShare(m.core, Step(m, Request(r)).core, PartitionIdx(m.core.rows, r.spId))
  {
    CalledEffect(m.core, r);
    CallKeepsShares(m.core, Called(m.core, r), PartitionIdx(m.core.rows, r.spId), Arrived(m.core, r).psp);
  }

  lemma StepTouches(m: Machine, a: Action)
    requires WellIndexed(m.core) && FramesLinked(m) && (Enters(m, a) ==> Touched(m, a) != m.core.running)
    ensures OthersKeepShare(m.core, Step(m, a).core, Touched(m, a))
  {
    if m.halt == NotHalted {
      match a
      case Request(r) =>
        if Enters(m, a) {
          RequestShares(m, r);
        }
      case Return(retVal, lr) =>
        if m.frames != [] {
          ReturnShares(m, retVal, lr);
        }
      case SetBuffer(_) =>
        LocalShares(m, a);
      case MoveStack(_) =>
        LocalShares(m, a);
    }
  }

  /** The row an action touches is not one of the suspended callers. */
  lemma TouchedIsNoCaller(m: Machine, a: Action)
    requires ChainShape(m.core, Chain(m)) && DistinctIds(m.core) && !m.core.initPhase
    ensures Touched(m, a) !in Chain(m)[..|m.frames|]
    ensures Enters(m, a) ==> Touched(m, a) != m.core.running
  {
    var ch := Chain(m);
    if Enters(m, a) {
      CallIsPlain(m, a.req);
      assert m.core.running == ch[|ch| - 1];
    }
  }

  lemma SharesElsewhere(c: Core, c': Core, c0: Core, ps: seq<u32>, touched: u32)
    requires SameShares(c, c0, ps) && OthersKeepShare(c, c', touched) && touched !in ps
    ensures SameShares(c', c0, ps)
  {
    forall k | 0 <= k < |ps|
      ensures SameShare(c', c0, ps[k])
    {
      assert SameShare(c, c0, ps[k]);
    }
  }

  lemma StepKeepsCallerShares(m: Machine, a: Action, c0: Core, ps: seq<u32>)
    requires ChainShape(m.core, Chain(m)) && FramesLinked(m) && DistinctIds(m.core) && !m.core.initPhase
    requires |ps| <= |m.frames| && ps == Chain(m)[..|ps|] && SameShares(m.core, c0, ps)
    ensures SameShares(Step(m, a).core, c0, ps)
  {
    TouchedIsNoCaller(m, a);
    StepTouches(m, a);
    assert ps == Chain(m)[..|m.frames|][..|ps|];
    SharesElsewhere(m.core, Step(m, a).core, c0, ps, Touched(m, a));
  }

  /** The chain of a machine with the same lower frames starts alike. */
  lemma ChainPrefix(m: Machine, m': Machine, n: nat)
    requires 1 <= n <= |m.frames| && n <= |m'.frames| && m'.frames[..n] == m.frames[..n]
    ensures Chain(m')[..n + 1] == Chain(m)[..n + 1]
  {
    assert forall k :: 0 <= k < n ==> m'.frames[k] == m'.frames[..n][k] == m.frames[..n][k] == m.frames[k];
  }

  lemma StepKeepsCallers(m: Machine, a: Action, ps: seq<u32>)
    requires WellIndexed(m.core) && 1 <= |ps| <= |m.frames| && |ps| <= |Step(m, a).frames| && ps == Chain(m)[..|ps|]
    ensures ps == Chain(Step(m, a))[..|ps|]
  {
    var n := |ps|;
    StepKeepsLowerFrames(m, a, n - 1);
    ChainPrefix(m, Step(m, a), n);
    assert Chain(Step(m, a))[..n] == Chain(Step(m, a))[..n + 1][..n] == Chain(m)[..n + 1][..n] == Chain(m)[..n];
  }

  lemma {:induction false} InsideKeepsShares(m: Machine, body: seq<Action>, c0: Core, ps: seq<u32>, base: Core)
    requires Inv(m, base) && !m.core.initPhase && 1 <= |ps| && StaysInside(m, body, |ps| - 1)
    requires ps == Chain(m)[..|ps|] && SameShares(m.core, c0, ps)
    ensures SameShares(Run(m, body).core, c0, ps)
    ensures |ps| <= |Run(m, body).frames| && ps == Chain(Run(m, body))[..|ps|]
    decreases |body|
  {
    if body == [] {
    } else {
      StepKeepsCallerShares(m, body[0], c0, ps);
      StepKeepsCallers(m, body[0], ps);
      StepKeepsInv(m, body[0], base);
      InsideKeepsShares(Step(m, body[0]), body[1..], c0, ps, base);
    }
  }

  /** A whole call leaves the recorded share modes of the caller and its callers alone. */
  lemma CallKeepsCallerShares(m: Machine, r: SfnReq, body: seq<Action>, retVal: int, lr: u32, base: Core)
    requires Inv(m, base) && !m.core.initPhase && m.halt == NotHalted && Enters(m, Request(r))
    requires StaysInside(Step(m, Request(r)), body, |m.frames|)
    ensures SameShares(Step(Run(Step(m, Request(r)), body), Return(retVal, lr)).core, m.core, Chain(m))
  {
    var ps, m1 := Chain(m), Step(m, Request(r));
    RequestKeepsInv(m, r, base);
    EnteredShares(m, r);
    assert ps == Chain(m1)[..|ps|];
    InsideKeepsShares(m1, body, m.core, ps, base);
    InsideKeepsLowerFrames(m1, body, |m.frames|);
    RunKeepsInv(m1, body, base);
    StepKeepsCallerShares(Run(m1, body), Return(retVal, lr), m.core, ps);
  }

  lemma EnteredShares(m: Machine, r: SfnReq)
    requires ChainShape(m.core, Chain(m)) && FramesLinked(m) && DistinctIds(m.core) && !m.core.initPhase
    requires m.halt == NotHalted && Enters(m, Request(r))
    ensures SameShares(Step(m, Request(r)).core, m.core, Chain(m))
  {
    var ch := Chain(m);
    CallIsPlain(m, r);
    assert m.core.running == ch[|ch| - 1];
    RequestShares(m, r);
    assert SameShares(m.core, m.core, ch) by {
      assert forall k :: 0 <= k < |ch| ==> ch[k] < |m.core.rows|;
    }
    SharesElsewhere(m.core, Step(m, Request(r)).core, m.core, ch, PartitionIdx(m.core.rows, r.spId));
  }

  /** No run after boot ends in the unlock or link-register halt; only a reserved return value halts. */
  lemma UnlockHaltsUnreachable(base: Core, actions: seq<Action>)
    requires Booted(base)
    ensures var halt := Run(Start(base), actions).halt;
            halt != HaltedBy(UnlockError) && halt != HaltedBy(LrMismatch)
  {
    BootedInv(base);
    RunKeepsInv(Start(base), actions, base);
  }

  lemma EnclosedRun(m: Machine, f: Frame, m1: Machine, body: seq<Action>, base: Core)
    requires Inv(m1, base) && !m1.core.initPhase && m1.frames == m.frames + [f]
    requires StaysInside(m1, body, |m.frames|) && |Run(m1, body).frames| == |m.frames| + 1
    ensures Inv(Run(m1, body), base) && !Run(m1, body).core.initPhase
    ensures Run(m1, body).frames == m.frames + [f]
  {
    RunKeepsInv(m1, body, base);
    EnclosedFrames(m1, body, |m.frames|);
  }

  lemma EnclosedFrames(m: Machine, body: seq<Action>, depth: nat)
    requires WellIndexed(m.core) && |m.frames| == depth + 1
    requires StaysInside(m, body, depth) && |Run(m, body).frames| == depth + 1
    ensures Run(m, body).frames == m.frames
  {
    InsideKeepsLowerFrames(m, body, depth);
    var after := Run(m, body).frames;
    assert after[..depth + 1] == after && m.frames[..depth + 1] == m.frames;
  }

  lemma MatchedReturn(m: Machine, f: Frame, m2: Machine, retVal: int, lr: u32, base: Core)
    requires Inv(m2, base) && !m2.core.initPhase && m2.halt == NotHalted
    requires m2.frames == m.frames + [f] && f.before == m.core
    requires f.act.direct || !ReservedValue(retVal)
    ensures var after := Step(m2, Return(retVal, lr));
            && after.halt == NotHalted && after.frames == m.frames
            && SameSkeleton(after.core, m.core)
            && (!f.act.direct ==> after.core.psp == m.core.psp)
  {
    assert Top(m2) == f && Below(m2) == m.frames;
    ReturnKeepsInv(m2, retVal, lr, base);
  }

  // ---- Stacks

  predicate AtTop(r: Row) { r.stackPtr == r.stackTop }

  /** Every user partition is ready to run from its stack top. */
  predicate StacksAtTop(c: Core) {
    forall i :: 2 <= i < |c.rows| ==> AtTop(c.rows[i])
  }

  /** A secure function returns with the stack pointer it started with. */
  predicate Balanced(m: Machine, a: Action) {
    a.Return? && m.halt == NotHalted && m.frames != [] ==> m.core.psp == Top(m).entryPsp
  }

  predicate BalancedRun(m: Machine, actions: seq<Action>)
    requires WellIndexed(m.core)
    decreases |actions|
  {
    actions == [] || (Balanced(m, actions[0]) && BalancedRun(Step(m, actions[0]), actions[1..]))
  }

  /** Every user partition off the chain is ready to run from its stack top, and those on it started there. */
  ghost predicate StacksReady(m: Machine) {
    && (forall i :: 2 <= i < |m.core.rows| && i !in Chain(m) ==> AtTop(m.core.rows[i]))
    && (forall k :: 0 <= k < |m.frames| && 2 <= m.frames[k].callee < |m.core.rows| ==>
          m.frames[k].entryPsp == m.core.rows[m.frames[k].callee].stackTop)
  }

  lemma CalledPsp(c: Core, r: SfnReq)
    requires WellIndexed(c) && (r.SfnReq? ==> Registered(c, r.spId)) && Admission(c, r) == Success
    requires c.platform.level == Level3 && PartitionIdx(c.rows, r.spId) != c.running
    ensures Called(c, r).psp == c.rows[PartitionIdx(c.rows, r.spId)].stackPtr
  {
  }

  lemma ReturnedStackPtr(f: Frame, c: Core, retVal: int, lr: u32)
    requires FrameOk(f) && Linked(f, c) && WellIndexed(c) && !ReservedValue(retVal)
    requires c.platform.level == Level3
    ensures Returned(c, f.act, retVal, lr).Back?
    ensures Returned(c, f.act, retVal, lr).core.rows[c.running].stackPtr == c.psp
    ensures PopEffect(c, Returned(c, f.act, retVal, lr).core)
  {
    LinkedSaves(f, c);
    ReturnRestores(f, c, retVal, lr);
    var c1 := EnterSvc(c);
    assert PopLock(c1).rows == PopRows(c1);
  }

  lemma RequestKeepsStacks(m: Machine, r: SfnReq, base: Core)
    requires Inv(m, base) && m.halt == NotHalted && m.core.platform.level == Level3 && StacksReady(m)
    requires (r.SfnReq? ==> Registered(m.core, r.spId)) && Admission(m.core, r) == Success
    ensures StacksReady(Step(m, Request(r)))
  {
    var m' := Step(m, Request(r));
    var callee := PartitionIdx(m.core.rows, r.spId);
    CallIsPlain(m, r);
    RequestKeepsInv(m, r, base);
    CalledPsp(m.core, r);
    CalledEffect(m.core, r);
    PushKeepsStacks(m, FrameOf(m.core, r), m'.core);
  }

  lemma PushKeepsStacks(m: Machine, f: Frame, c': Core)
    requires StacksReady(m) && f.callee !in Chain(m) && f.before == m.core && m.core.running in Chain(m)
    requires CallEffect(m.core, c', f.callee, ArrivalPsp(f))
    requires f.entryPsp == m.core.rows[f.callee].stackPtr
    ensures StacksReady(m.(core := c', frames := m.frames + [f]))
  {
    var m' := m.(core := c', frames := m.frames + [f]);
    assert Chain(m') == Chain(m) + [f.callee];
    assert forall i :: 0 <= i < |c'.rows| ==> c'.rows[i].stackTop == m.core.rows[i].stackTop;
    assert forall i :: 2 <= i < |c'.rows| && i !in Chain(m') ==> i !in Chain(m) && c'.rows[i] == m.core.rows[i];
  }

  lemma PopKeepsStacks(m: Machine, c': Core)
    requires StacksReady(m) && m.frames != [] && m.core.running == Top(m).callee && m.core.running < |m.core.rows|
    requires PopEffect(m.core, c') && c'.rows[m.core.running].stackPtr == Top(m).entryPsp
    requires Chain(m.(core := c', frames := Below(m))) == Chain(m)[..|m.frames|]
    ensures StacksReady(m.(core := c', frames := Below(m)))
  {
    var m' := m.(core := c', frames := Below(m));
    assert forall i :: 0 <= i < |c'.rows| ==> c'.rows[i].stackTop == m.core.rows[i].stackTop;
    forall i | 2 <= i < |c'.rows| && i !in Chain(m')
      ensures AtTop(c'.rows[i])
    {
      if i != m.core.running {
        assert Chain(m) == Chain(m') + [m.core.running];
        assert i !in Chain(m);
        assert c'.rows[i].stackPtr == m.core.rows[i].stackPtr;
      }
    }
  }

  lemma LocalKeepsStacks(m: Machine, c': Core)
    requires StacksReady(m) && SameSkeleton(c', m.core) && Chain(m.(core := c')) == Chain(m)
    requires forall i :: 0 <= i < |c'.rows| ==> c'.rows[i].stackPtr == m.core.rows[i].stackPtr
    ensures StacksReady(m.(core := c'))
  {
    forall i | 0 <= i < |c'.rows|
      ensures c'.rows[i].stackTop == m.core.rows[i].stackTop
    {
      assert Skeleton(c'.rows[i]) == Skeleton(m.core.rows[i]);
    }
  }

  lemma LocalStep(m: Machine, a: Action)
    requires WellIndexed(m.core) && (a.SetBuffer? || a.MoveStack?)
    ensures var c' := Step(m, a).core;
            && SameSkeleton(c', m.core) && Step(m, a) == m.(core := c')
            && forall i :: 0 <= i < |c'.rows| ==> c'.rows[i].stackPtr == m.core.rows[i].stackPtr
  {
    if a.SetBuffer? && m.core.running < |m.core.rows| {
      SetBufferKeepsSkeleton(m.core, a.arg);
    }
  }

  lemma LocalStepKeepsStacks(m: Machine, a: Action)
    requires FramesLinked(m) && WellIndexed(m.core) && StacksReady(m)
    requires a.SetBuffer? || a.MoveStack?
    ensures StacksReady(Step(m, a))
  {
    LocalStep(m, a);
    LocalKeepsFrames(m, Step(m, a).core);
    LocalKeepsStacks(m, Step(m, a).core);
  }

  lemma StepKeepsStacks(m: Machine, a: Action, base: Core)
    requires Inv(m, base) && m.core.platform.level == Level3 && StacksReady(m) && Balanced(m, a)
    requires Step(m, a).core.initPhase ==> Step(m, a).frames != []
    ensures StacksReady(Step(m, a))
  {
    if m.halt == NotHalted {
      match a
      case Request(r) =>
        if (r.SfnReq? ==> Registered(m.core, r.spId)) && Admission(m.core, r) == Success {
          RequestKeepsStacks(m, r, base);
        }
      case Return(retVal, lr) =>
        if m.frames != [] {
          ReturnKeepsStacks(m, retVal, lr, base);
        }
      case SetBuffer(arg) =>
        LocalStepKeepsStacks(m, a);
      case MoveStack(psp) =>
        LocalStepKeepsStacks(m, a);
    }
  }

  lemma ReturnKeepsStacks(m: Machine, retVal: int, lr: u32, base: Core)
    requires Inv(m, base) && m.halt == NotHalted && m.frames != []
    requires m.core.platform.level == Level3 && StacksReady(m) && m.core.psp == Top(m).entryPsp
    requires var m' := Step(m, Return(retVal, lr)); m'.core.initPhase ==> m'.frames != []
    ensures StacksReady(Step(m, Return(retVal, lr)))
  {
    TopLinked(m);
    if ReservedValue(retVal) {
      ReservedReturnKeepsStacks(m, retVal, lr);
    } else {
      ReturnStep'(m, retVal, lr);
      ReturnKeepsInv(m, retVal, lr, base);
      ReturnedStackPtr(Top(m), m.core, retVal, lr);
      PopKeepsStacks(m, Step(m, Return(retVal, lr)).core);
    }
  }

  lemma ReservedReturnKeepsStacks(m: Machine, retVal: int, lr: u32)
    requires WellIndexed(m.core) && FramesLinked(m) && m.halt == NotHalted && m.frames != []
    requires StacksReady(m) && !Top(m).act.direct && ReservedValue(retVal)
    ensures StacksReady(Step(m, Return(retVal, lr)))
  {
    var c' := EnterSvc(m.core);
    ReservedStep(m, retVal, lr);
    LocalKeepsFrames(m, c');
    LocalKeepsStacks(m, c');
    HaltKeepsFrames(m.(core := c'), HaltedBy(ReservedReturn));
  }

  lemma ReturnStep'(m: Machine, retVal: int, lr: u32)
    requires WellIndexed(m.core) && m.halt == NotHalted && m.frames != []
    requires FrameOk(Top(m)) && Linked(Top(m), m.core) && !ReservedValue(retVal)
    ensures Step(m, Return(retVal, lr)) ==
            m.(core := Returned(m.core, Top(m).act, retVal, lr).core, frames := Below(m))
  {
    ReturnRestores(Top(m), m.core, retVal, lr);
    ReturnStep(m, retVal, lr);
  }

  lemma {:induction false} RunKeepsStacks(m: Machine, actions: seq<Action>, base: Core)
    requires Inv(m, base) && !m.core.initPhase && m.core.platform.level == Level3 && StacksReady(m)
    requires BalancedRun(m, actions)
    ensures StacksReady(Run(m, actions))
    decreases |actions|
  {
    if actions == [] {
    } else {
      StepKeepsInv(m, actions[0], base);
      StepKeepsStacks(m, actions[0], base);
      RunKeepsStacks(Step(m, actions[0]), actions[1..], base);
    }
  }

  /** At level 3, if boot left the user stacks at their tops and secure functions leave the stack as they
      found it, every user partition that is not active has its saved stack pointer at its stack top, in
      every reachable state. */
  lemma StacksReadyInEveryState(base: Core, actions: seq<Action>, i: nat)
    requires Booted(base) && StacksAtTop(base)
    requires base.platform.level == Level3 && BalancedRun(Start(base), actions)
    requires 2 <= i < |base.rows|
    requires Run(Start(base), actions).core.rows[i].state == Idle
    ensures AtTop(Run(Start(base), actions).core.rows[i])
  {
    BootedInv(base);
    RunKeepsStacks(Start(base), actions, base);
    RunKeepsInv(Start(base), actions, base);
    IdleIsReady(Run(Start(base), actions), i);
  }

  lemma IdleIsReady(m: Machine, i: nat)
    requires ChainShape(m.core, Chain(m)) && StacksReady(m) && !m.core.initPhase
    requires 2 <= i < |m.core.rows| && m.core.rows[i].state == Idle
    ensures AtTop(m.core.rows[i])
  {
    var ch := Chain(m);
    assert forall k :: 0 <= k < |ch| ==> m.core.rows[ch[k]].state != Idle;
  }

  // ---- Share mode

  /** While a secure partition runs, the share mode in hardware is the one its row records. */
  predicate ShareProgrammed(c: Core) {
    c.running < |c.rows| && c.rows[c.running].secure ==> c.hwShare == c.rows[c.running].share
  }

  lemma CalledShare(c: Core, r: SfnReq)
    requires WellIndexed(c) && (r.SfnReq? ==> Registered(c, r.spId)) && Admission(c, r) == Success
    requires c.platform.level == Level3
    ensures ShareProgrammed(Called(c, r))
  {
  }

  lemma ReturnedShare(f: Frame, c: Core, retVal: int, lr: u32)
    requires FrameOk(f) && Linked(f, c) && WellIndexed(c) && !ReservedValue(retVal)
    requires c.platform.level == Level3 && !c.initPhase
    ensures ShareProgrammed(Returned(c, f.act, retVal, lr).core)
  {
    LinkedSaves(f, c);
    ReturnRestores(f, c, retVal, lr);
    var c2 := PopLock(EnterSvc(c));
    assert c2.rows == PopRows(EnterSvc(c));
    assert ShareProgrammed(c2);
  }

  lemma SetBufferShare(c: Core, arg: u32)
    requires WellIndexed(c) && c.running < |c.rows| && c.platform.level == Level3 && ShareProgrammed(c)
    ensures ShareProgrammed(SetBufferArea(c, arg).0)
  {
  }

  lemma StepKeepsShare(m: Machine, a: Action)
    requires WellIndexed(m.core) && FramesLinked(m)
    requires m.core.platform.level == Level3 && !m.core.initPhase && ShareProgrammed(m.core)
    ensures ShareProgrammed(Step(m, a).core)
  {
    if m.halt == NotHalted {
      match a
      case Request(r) =>
        if (r.SfnReq? ==> Registered(m.core, r.spId)) && Admission(m.core, r) == Success {
          CalledShare(m.core, r);
        }
      case Return(retVal, lr) =>
        if m.frames != [] {
          TopLinked(m);
          if !ReservedValue(retVal) {
            ReturnedShare(Top(m), m.core, retVal, lr);
          }
        }
      case SetBuffer(arg) =>
        if m.frames != [] && m.core.running < |m.core.rows| {
          SetBufferShare(EnterSvc(m.core), arg);
        }
      case MoveStack(psp) =>
    }
  }

  lemma {:induction false} RunKeepsShare(m: Machine, actions: seq<Action>, base: Core)
    requires Inv(m, base) && m.core.platform.level == Level3 && !m.core.initPhase && ShareProgrammed(m.core)
    ensures ShareProgrammed(Run(m, actions).core)
    decreases |actions|
  {
    if actions == [] {
    } else {
      StepKeepsInv(m, actions[0], base);
      StepKeepsShare(m, actions[0]);
      RunKeepsShare(Step(m, actions[0]), actions[1..], base);
    }
  }

  /** At level 3, after boot, through any nesting of calls, returns and set-buffer requests. */
  lemma ShareProgrammedInEveryState(base: Core, actions: seq<Action>)
    requires Booted(base) && base.platform.level == Level3
    ensures ShareProgrammed(Run(Start(base), actions).core)
  {
    BootedInv(base);
    RunKeepsShare(Start(base), actions, base);
  }

  // ---- The saved exception register

  predicate KeyReads(aircr: bv32) { aircr & VECTKEY_MASK == 0xFA05_0000 }

  function Prioritised(aircr: bv32): bv32 { aircr | 0x4000 }

  function Deprioritised(aircr: bv32): bv32 { aircr & !0x4000 }

  /** With the read-back key in place both writes carry the key the hardware wants. */
  lemma ConfigureWrites(c: Core)
    requires KeyReads(c.aircr)
    ensures ConfigureSecureException(c).aircr == Prioritised(c.aircr)
    ensures KeyReads(Prioritised(c.aircr))
  {
  }

  lemma DeconfigureWrites(c: Core)
    requires KeyReads(c.savedAircr)
    ensures DeconfigureSecureException(c).aircr == Deprioritised(c.savedAircr)
    ensures KeyReads(Deprioritised(c.savedAircr))
  {
  }

  /** Only the request that entered from the non-secure side configures, so its save stays live. */
  ghost predicate SaveLive(m: Machine) {
    && KeyReads(m.core.aircr)
    && (forall k :: 1 <= k < |m.frames| ==> !m.frames[k].act.nsCaller)
    && (m.frames != [] && m.frames[0].act.nsCaller ==>
          && KeyReads(m.core.savedAircr)
          && m.core.savedAircr == m.frames[0].before.aircr
          && m.core.aircr == Prioritised(m.core.savedAircr))
  }

  lemma PushedRegister(c: Core, r: SfnReq)
    requires WellIndexed(c) && (r.SfnReq? ==> Registered(c, r.spId)) && Admission(c, r) == Success
    ensures var pushed := PushLock(Arrived(c, r), r);
            pushed.aircr == c.aircr && pushed.savedAircr == c.savedAircr
    ensures r.nsCaller ==> c.lock == 0
  {
  }

  lemma CalledRegister(c: Core, r: SfnReq)
    requires WellIndexed(c) && (r.SfnReq? ==> Registered(c, r.spId)) && Admission(c, r) == Success
    requires KeyReads(c.aircr)
    ensures var c' := Called(c, r);
            if r.nsCaller then c'.savedAircr == c.aircr && c'.aircr == Prioritised(c.aircr) && c.lock == 0
            else c'.savedAircr == c.savedAircr && c'.aircr == c.aircr
    ensures KeyReads(Called(c, r).aircr)
  {
    PushedRegister(c, r);
    ConfigureWrites(PushLock(Arrived(c, r), r));
  }

  lemma RequestKeepsSave(m: Machine, r: SfnReq)
    requires WellIndexed(m.core) && m.halt == NotHalted && SaveLive(m) && m.core.lock == |m.frames|
    requires (r.SfnReq? ==> Registered(m.core, r.spId)) && Admission(m.core, r) == Success
    ensures SaveLive(Step(m, Request(r)))
  {
    CalledRegister(m.core, r);
    assert Step(m, Request(r)).frames == m.frames + [FrameOf(m.core, r)];
  }

  lemma ReturnedRegister(c: Core, act: Activation, retVal: int, lr: u32)
    requires WellIndexed(c) && Returned(c, act, retVal, lr).Back? && (act.nsCaller ==> KeyReads(c.savedAircr))
    ensures var c' := Returned(c, act, retVal, lr).core;
            && c'.savedAircr == c.savedAircr
            && c'.aircr == (if act.nsCaller then Deprioritised(c.savedAircr) else c.aircr)
            && (act.nsCaller ==> KeyReads(c'.aircr))
  {
    var c1 := if act.direct then c else EnterSvc(c);
    var c2 := PopLock(c1);
    assert c2.aircr == c.aircr && c2.savedAircr == c.savedAircr;
    if act.nsCaller {
      DeconfigureWrites(c2);
    }
  }

  lemma ReturnKeepsSave(m: Machine, retVal: int, lr: u32)
    requires WellIndexed(m.core) && m.halt == NotHalted && m.frames != [] && SaveLive(m)
    requires Returned(m.core, Top(m).act, retVal, lr).Back?
    ensures SaveLive(Step(m, Return(retVal, lr)))
  {
    ReturnStep(m, retVal, lr);
    ReturnedRegister(m.core, Top(m).act, retVal, lr);
    PopKeepsSave(m, Returned(m.core, Top(m).act, retVal, lr).core);
  }

  lemma PopKeepsSave(m: Machine, c': Core)
    requires m.frames != [] && SaveLive(m) && c'.savedAircr == m.core.savedAircr
    requires if Top(m).act.nsCaller then KeyReads(c'.aircr) else c'.aircr == m.core.aircr
    ensures SaveLive(m.(core := c', frames := Below(m)))
  {
  }

  lemma StepKeepsSave(m: Machine, a: Action)
    requires WellIndexed(m.core) && FramesLinked(m) && m.core.lock == |m.frames| && SaveLive(m)
    ensures SaveLive(Step(m, a))
  {
    if m.halt == NotHalted {
      match a
      case Request(r) =>
        RequestStepKeepsSave(m, r);
      case Return(retVal, lr) =>
        if m.frames != [] {
          ReturnStepKeepsSave(m, retVal, lr);
        }
      case SetBuffer(_) =>
        LocalStepKeepsSave(m, a);
      case MoveStack(_) =>
        LocalStepKeepsSave(m, a);
    }
  }

  lemma RequestStepKeepsSave(m: Machine, r: SfnReq)
    requires WellIndexed(m.core) && m.halt == NotHalted && SaveLive(m) && m.core.lock == |m.frames|
    ensures SaveLive(Step(m, Request(r)))
  {
    if (r.SfnReq? ==> Registered(m.core, r.spId)) && Admission(m.core, r) == Success {
      RequestKeepsSave(m, r);
    }
  }

  lemma ReturnStepKeepsSave(m: Machine, retVal: int, lr: u32)
    requires WellIndexed(m.core) && FramesLinked(m) && SaveLive(m) && m.halt == NotHalted && m.frames != []
    ensures SaveLive(Step(m, Return(retVal, lr)))
  {
    TopLinked(m);
    if Top(m).act.direct || !ReservedValue(retVal) {
      ReturnRestores(Top(m), m.core, retVal, lr);
      ReturnKeepsSave(m, retVal, lr);
    }
  }

  lemma LocalStepKeepsSave(m: Machine, a: Action)
    requires WellIndexed(m.core) && SaveLive(m) && (a.SetBuffer? || a.MoveStack?)
    ensures SaveLive(Step(m, a))
  {
    LocalRegisters(m, a);
    LocalStep(m, a);
  }

  lemma LocalRegisters(m: Machine, a: Action)
    requires WellIndexed(m.core) && (a.SetBuffer? || a.MoveStack?)
    ensures Step(m, a).core.aircr == m.core.aircr && Step(m, a).core.savedAircr == m.core.savedAircr
  {
  }

  lemma {:induction false} RunKeepsSave(m: Machine, actions: seq<Action>, base: Core)
    requires Inv(m, base) && !m.core.initPhase && SaveLive(m)
    ensures SaveLive(Run(m, actions))
    decreases |actions|
  {
    if actions == [] {
    } else {
      StepKeepsInv(m, actions[0], base);
      StepKeepsSave(m, actions[0]);
      RunKeepsSave(Step(m, actions[0]), actions[1..], base);
    }
  }

  /** In every run, a return to the non-secure side deconfigures with the register value its own request
      saved; the register comes back unchanged if and only if non-secure exceptions were not already
      deprioritised when the call entered. */
  lemma DeconfigureUsesOwnSave(base: Core, actions: seq<Action>, retVal: int, lr: u32)
    requires Booted(base) && KeyReads(base.aircr)
    requires var m := Run(Start(base), actions);
             m.halt == NotHalted && m.frames != [] && Top(m).act.nsCaller && !ReservedValue(retVal)
    ensures
      var m := Run(Start(base), actions);
      var after := Step(m, Return(retVal, lr));
      && |m.frames| == 1
      && m.core.savedAircr == Top(m).before.aircr
      && after.core.aircr == Deprioritised(Top(m).before.aircr)
      && (after.core.aircr == Top(m).before.aircr <==> Top(m).before.aircr & PRIS == 0)
  {
    BootedInv(base);
    RunKeepsInv(Start(base), actions, base);
    RunKeepsSave(Start(base), actions, base);
    DeconfigureByTop(Run(Start(base), actions), retVal, lr);
  }

  lemma DeconfigureByTop(m: Machine, retVal: int, lr: u32)
    requires WellIndexed(m.core) && FramesLinked(m) && SaveLive(m)
    requires m.halt == NotHalted && m.frames != [] && Top(m).act.nsCaller && !ReservedValue(retVal)
    ensures
      var after := Step(m, Return(retVal, lr));
      && |m.frames| == 1
      && m.core.savedAircr == Top(m).before.aircr
      && after.core.aircr == Deprioritised(Top(m).before.aircr)
      && (after.core.aircr == Top(m).before.aircr <==> Top(m).before.aircr & PRIS == 0)
  {
    TopLinked(m);
    ReturnRestores(Top(m), m.core, retVal, lr);
    ReturnStep(m, retVal, lr);
    ReturnedRegister(m.core, Top(m).act, retVal, lr);
  }

  /** While the secure side is at rest the register is the one boot left; otherwise the call that entered from
      the non-secure side found it so. */
  ghost predicate RegisterKept(m: Machine, base: Core) {
    if m.frames == [] then m.core.aircr == base.aircr
    else m.frames[0].act.nsCaller && m.frames[0].before.aircr == base.aircr
  }

  lemma RequestKeepsRegister(m: Machine, r: SfnReq, base: Core)
    requires WellIndexed(m.core) && m.halt == NotHalted && RegisterKept(m, base)
    requires (r.SfnReq? ==> Registered(m.core, r.spId)) && Admission(m.core, r) == Success
    requires m.frames == [] ==> m.core.running < |m.core.rows| && !m.core.rows[m.core.running].secure
    ensures RegisterKept(Step(m, Request(r)), base)
  {
    assert Step(m, Request(r)).frames == m.frames + [FrameOf(m.core, r)];
    if m.frames == [] {
      assert r.nsCaller;
    }
  }

  lemma ReturnKeepsRegister(m: Machine, retVal: int, lr: u32, base: Core)
    requires WellIndexed(m.core) && FramesLinked(m) && m.halt == NotHalted && m.frames != []
    requires SaveLive(m) && RegisterKept(m, base) && base.aircr & PRIS == 0
    ensures RegisterKept(Step(m, Return(retVal, lr)), base)
  {
    TopLinked(m);
    if Top(m).act.direct || !ReservedValue(retVal) {
      ReturnRestores(Top(m), m.core, retVal, lr);
      ReturnStep(m, retVal, lr);
      ReturnedRegister(m.core, Top(m).act, retVal, lr);
      PopKeepsRegister(m, Step(m, Return(retVal, lr)), base);
    } else {
      ReservedStep(m, retVal, lr);
    }
  }

  lemma PopKeepsRegister(m: Machine, m': Machine, base: Core)
    requires m.frames != [] && SaveLive(m) && RegisterKept(m, base) && base.aircr & PRIS == 0
    requires m'.frames == Below(m)
    requires Top(m).act.nsCaller ==> m'.core.aircr == Deprioritised(m.core.savedAircr)
    ensures RegisterKept(m', base)
  {
    ClearStaysClear(base.aircr);
  }

  lemma ClearStaysClear(aircr: bv32)
    requires aircr & PRIS == 0
    ensures Deprioritised(aircr) == aircr
  {
  }

  lemma StepKeepsRegister(m: Machine, a: Action, base: Core)
    requires WellIndexed(m.core) && FramesLinked(m) && SaveLive(m) && RegisterKept(m, base) && base.aircr & PRIS == 0
    requires m.frames == [] ==> m.core.running < |m.core.rows| && !m.core.rows[m.core.running].secure
    ensures RegisterKept(Step(m, a), base)
  {
    if m.halt == NotHalted {
      if a.Request? {
        var r := a.req;
        if (r.SfnReq? ==> Registered(m.core, r.spId)) && Admission(m.core, r) == Success {
          RequestKeepsRegister(m, r, base);
        }
      } else if a.Return? && m.frames != [] {
        ReturnKeepsRegister(m, a.retVal, a.lr, base);
      }
    }
  }

  lemma RestIsNonSecure(m: Machine, base: Core)
    requires Booted(base) && Inv(m, base) && m.frames == []
    ensures m.core.running < |m.core.rows| && !m.core.rows[m.core.running].secure
  {
    assert Skeleton(m.core.rows[NON_SECURE_ID]) == Skeleton(base.rows[NON_SECURE_ID]);
  }

  lemma {:induction false} RunKeepsRegister(m: Machine, actions: seq<Action>, base: Core)
    requires Booted(base) && Inv(m, base) && !m.core.initPhase && SaveLive(m) && RegisterKept(m, base)
    requires base.aircr & PRIS == 0
    ensures RegisterKept(Run(m, actions), base)
    decreases |actions|
  {
    if actions == [] {
    } else {
      if m.frames == [] {
        RestIsNonSecure(m, base);
      }
      StepKeepsInv(m, actions[0], base);
      StepKeepsSave(m, actions[0]);
      StepKeepsRegister(m, actions[0], base);
      RunKeepsRegister(Step(m, actions[0]), actions[1..], base);
    }
  }

  /** From a boot with PRIS clear, in every run, a secure side without suspended requests has the exception
      register boot left. */
  lemma RegisterAtRestInEveryState(base: Core, actions: seq<Action>)
    requires Booted(base) && KeyReads(base.aircr) && base.aircr & PRIS == 0
    requires Run(Start(base), actions).frames == []
    ensures Run(Start(base), actions).core.aircr == base.aircr
  {
    BootedInv(base);
    RunKeepsRegister(Start(base), actions, base);
  }

  // ---- Which requests are accepted

  /** After boot a request is accepted exactly when it is well formed, comes from the side that is
      running in the mode that side must use, and names an idle partition that is not on the call chain. */
  lemma AcceptedExactly(base: Core, actions: seq<Action>, r: SfnReq)
    requires Booted(base) && r.SfnReq? && Registered(Run(Start(base), actions).core, r.spId)
    ensures
      var c := Run(Start(base), actions).core;
      var callee := PartitionIdx(c.rows, r.spId);
      Admission(c, r) == Success <==>
        && r.spId != 0 && r.sfn != 0
        && (if c.running == NON_SECURE_ID then r.nsCaller && r.excNum == EXC_NUM_SVCALL
            else c.running < |c.rows| && c.rows[c.running].secure && !r.nsCaller && r.excNum == EXC_NUM_THREAD_MODE)
        && base.rows[callee].state == Idle
        && callee !in WalkCallers(c.rows, c.running, |c.rows|)
  {
    var c := Run(Start(base), actions).core;
    CallChainInEveryState(base, actions);
    BootedInv(base);
    RunKeepsInv(Start(base), actions, base);
    StaticInEveryState(base, actions, NON_SECURE_ID);
    AcceptedOnChain(c, base, r);
  }

  lemma AcceptedOnChain(c: Core, base: Core, r: SfnReq)
    requires WellIndexed(c) && Booted(base) && DescribesOneChain(c, base) && !c.initPhase
    requires !c.rows[NON_SECURE_ID].secure
    requires r.SfnReq? && Registered(c, r.spId)
    ensures
      var callee := PartitionIdx(c.rows, r.spId);
      Admission(c, r) == Success <==>
        && r.spId != 0 && r.sfn != 0
        && (if c.running == NON_SECURE_ID then r.nsCaller && r.excNum == EXC_NUM_SVCALL
            else c.running < |c.rows| && c.rows[c.running].secure && !r.nsCaller && r.excNum == EXC_NUM_THREAD_MODE)
        && base.rows[callee].state == Idle
        && callee !in WalkCallers(c.rows, c.running, |c.rows|)
  {
    var callee := PartitionIdx(c.rows, r.spId);
    CalleeRests(c, base, callee);
    assert c.lock == 0 <==> c.running == NON_SECURE_ID;
    AdmittedExactly(c, r);
  }

  /** A partition is idle exactly when boot left it so and it is not on the chain. */
  lemma CalleeRests(c: Core, base: Core, callee: u32)
    requires DescribesOneChain(c, base) && callee < |c.rows|
    ensures c.rows[callee].state == Idle <==>
            base.rows[callee].state == Idle && callee !in WalkCallers(c.rows, c.running, |c.rows|)
  {
    var walk := WalkCallers(c.rows, c.running, |c.rows|);
    assert walk == [walk[0]] + walk[1..];
    assert callee in walk <==> callee == c.running || callee in walk[1..];
  }

  /** The tests of a request after boot, taken together. */
  lemma AdmittedExactly(c: Core, r: SfnReq)
    requires WellIndexed(c) && !c.initPhase && c.running < |c.rows| && r.SfnReq? && Registered(c, r.spId)
    ensures Admission(c, r) == Success <==>
              && r.spId != 0 && r.sfn != 0 && r.nsCaller == !c.rows[c.running].secure
              && (if r.nsCaller then r.excNum == EXC_NUM_SVCALL && c.lock == 0 else r.excNum == EXC_NUM_THREAD_MODE)
              && c.rows[PartitionIdx(c.rows, r.spId)].state == Idle
  {
  }
}
