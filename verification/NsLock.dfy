/** Non-secure threads interleaving through the mutex-protected SVC dispatcher. */
module NsLock {
  import opened Words
  import opened PartitionDb
  import opened CallMachine
  import opened CallRuns
  import opened CallTheorems

  /** The ten service dispatchers and the invalid entry 0. */
  const NUM_SVC_DISPATCHERS: nat := 11

  /** Where a thread is inside the dispatcher. */
  datatype Place =
    | Outside
    | Waiting(req: SfnReq)
    | Holding(req: SfnReq)
    | InSecure
    | Leaving

  datatype Owner = Free | HeldBy(thread: nat)

  datatype System = System(lockInit: bool, owner: Owner, places: map<nat, Place>, machine: Machine)

  datatype Event =
    | InitLock
    | Dispatch(thread: nat, svcNum: nat, req: SfnReq)
    | Acquire(thread: nat)
    | Enter(thread: nat)
    | LocalService(thread: nat)
    | Secure(action: Action)
    | Release(thread: nat)

  /** The request a veneer builds when a non-secure SVC handler calls it. */
  function FromNonSecure(r: SfnReq): SfnReq {
    if r.NullReq? then r else r.(nsCaller := true, excNum := EXC_NUM_SVCALL)
  }

  /** The action is one the running secure function can take. */
  predicate BySecureSide(m: Machine, a: Action) {
    m.frames != [] && (a.Request? && a.req.SfnReq? ==> !a.req.nsCaller)
  }

  /** A thread inside the secure call leaves it when the last suspended request is done. */
  function AfterSecure(places: map<nat, Place>, m: Machine): map<nat, Place> {
    map t | t in places :: if places[t] == InSecure && m.frames == [] then Leaving else places[t]
  }

  function Next(s: System, e: Event): (s': System)
    requires WellIndexed(s.machine.core)
    ensures WellIndexed(s'.machine.core)
  {
    match e
    case InitLock => s.(lockInit := true)
    case Dispatch(t, svcNum, r) =>
      if t in s.places && s.places[t] == Outside && s.lockInit && 0 < svcNum < NUM_SVC_DISPATCHERS
         && (r.SfnReq? ==> Registered(s.machine.core, r.spId))
      then s.(places := s.places[t := Waiting(FromNonSecure(r))])
      else s
    case Acquire(t) =>
      if t in s.places && s.places[t].Waiting? && s.owner == Free
      then s.(owner := HeldBy(t), places := s.places[t := Holding(s.places[t].req)])
      else s
    case Enter(t) =>
      if t in s.places && s.places[t].Holding? then
        var machine := Step(s.machine, Request(s.places[t].req));
        s.(machine := machine,
           places := s.places[t := if |machine.frames| > |s.machine.frames| then InSecure else Leaving])
      else s
    case LocalService(t) =>
      if t in s.places && s.places[t].Holding? then s.(places := s.places[t := Leaving]) else s
    case Secure(a) =>
      if BySecureSide(s.machine, a) then
        var machine := Step(s.machine, a);
        s.(machine := machine, places := AfterSecure(s.places, machine))
      else s
    case Release(t) =>
      if t in s.places && s.places[t] == Leaving
      then s.(owner := Free, places := s.places[t := Outside])
      else s
  }

  function Runs(s: System, events: seq<Event>): (s': System)
    requires WellIndexed(s.machine.core)
    ensures WellIndexed(s'.machine.core)
    decreases |events|
  {
    if events == [] then s else Runs(Next(s, events[0]), events[1..])
  }

  predicate Inside(p: Place) { p.Holding? || p.InSecure? || p.Leaving? }

  /** Requests in the dispatcher carry the marks of a non-secure handler call and name registered partitions. */
  predicate WellMarked(s: System, p: Place)
    requires |s.machine.core.rows| <= MAX_PARTITIONS
  {
    (p.Waiting? || p.Holding?) && p.req.SfnReq? ==>
      p.req.nsCaller && p.req.excNum == EXC_NUM_SVCALL && Registered(s.machine.core, p.req.spId)
  }

  /** Exactly the owner is past the mutex, and the secure side is busy only on the owner's behalf. */
  ghost predicate Exclusive(s: System) {
    && (forall t :: t in s.places ==> (Inside(s.places[t]) <==> s.owner == HeldBy(t)))
    && (s.owner.HeldBy? ==> s.owner.thread in s.places)
    && (forall t :: t in s.places && s.places[t].InSecure? ==> s.machine.frames != [])
    && (s.machine.frames != [] ==>
          s.owner.HeldBy? && s.owner.thread in s.places && s.places[s.owner.thread].InSecure?)
  }

  ghost predicate SystemInv(s: System, base: Core) {
    && Inv(s.machine, base) && !s.machine.core.initPhase
    && Exclusive(s)
    && (forall t :: t in s.places ==> WellMarked(s, s.places[t]))
  }

  /** A whole step of the machine keeps every partition's identifier. */
  lemma StepKeepsRegistered(m: Machine, a: Action, base: Core, id: u32)
    requires Inv(m, base) && !m.core.initPhase && Registered(m.core, id)
    ensures Registered(Step(m, a).core, id)
  {
    StepKeepsInv(m, a, base);
    InvKeepsIds(m, base, |m.frames|);
    InvKeepsIds(Step(m, a), base, |Step(m, a).frames|);
    PartitionIdxByIds(m.core.rows, base.rows, id, 0);
    PartitionIdxByIds(Step(m, a).core.rows, base.rows, id, 0);
  }

  lemma InvKeepsIds(m: Machine, base: Core, k: nat)
    requires FramesLinked(m) && SameSkeleton(CoreAt(m, 0), base) && k <= |m.frames|
    ensures |CoreAt(m, k).rows| == |base.rows|
    ensures forall i :: 0 <= i < |base.rows| ==> CoreAt(m, k).rows[i].id == base.rows[i].id
  {
    RowCount(m, base, k);
    forall i | 0 <= i < |base.rows|
      ensures CoreAt(m, k).rows[i].id == base.rows[i].id
    {
      StaticKept(m, base, k, i);
    }
  }

  lemma MachineStepKeepsMarks(s: System, a: Action, base: Core, t: nat)
    requires SystemInv(s, base) && t in s.places
    ensures WellMarked(s.(machine := Step(s.machine, a)), s.places[t])
  {
    var p := s.places[t];
    assert WellMarked(s, p);
    if (p.Waiting? || p.Holding?) && p.req.SfnReq? {
      StepKeepsRegistered(s.machine, a, base, p.req.spId);
    }
  }

  lemma NextKeepsExclusive(s: System, e: Event)
    requires WellIndexed(s.machine.core) && Exclusive(s)
    ensures Exclusive(Next(s, e))
  {
    if e.Secure? && BySecureSide(s.machine, e.action) {
      assert s.owner.HeldBy?;
    }
  }

  /** The machine stands still or takes one step. */
  function MachineAction(s: System, e: Event): Action
    requires Moves(s, e)
  {
    if e.Secure? then e.action else Request(s.places[e.thread].req)
  }

  predicate Moves(s: System, e: Event) {
    || (e.Secure? && BySecureSide(s.machine, e.action))
    || (e.Enter? && e.thread in s.places && s.places[e.thread].Holding?)
  }

  lemma NextMachine(s: System, e: Event)
    requires WellIndexed(s.machine.core)
    ensures Next(s, e).machine == if Moves(s, e) then Step(s.machine, MachineAction(s, e)) else s.machine
    ensures forall t :: t in Next(s, e).places ==> t in s.places
    ensures forall t :: t in Next(s, e).places && !e.Dispatch? ==>
              var p := Next(s, e).places[t];
              (p.Waiting? ==> p == s.places[t]) &&
              (p.Holding? ==> p == s.places[t] || s.places[t] == Waiting(p.req))
  {
  }

  lemma NextKeepsMarks(s: System, e: Event, base: Core, t: nat)
    requires SystemInv(s, base) && t in Next(s, e).places
    ensures WellMarked(Next(s, e), Next(s, e).places[t])
  {
    NextMachine(s, e);
    assert WellMarked(s, s.places[t]);
    if Moves(s, e) {
      MachineStepKeepsMarks(s, MachineAction(s, e), base, t);
    }
  }

  lemma NextKeepsInv(s: System, e: Event, base: Core)
    requires SystemInv(s, base)
    ensures SystemInv(Next(s, e), base)
  {
    NextKeepsExclusive(s, e);
    NextMachine(s, e);
    if Moves(s, e) {
      StepKeepsInv(s.machine, MachineAction(s, e), base);
    }
    forall t | t in Next(s, e).places
      ensures WellMarked(Next(s, e), Next(s, e).places[t])
    {
      NextKeepsMarks(s, e, base, t);
    }
  }

  lemma {:induction false} RunsKeepInv(s: System, events: seq<Event>, base: Core)
    requires SystemInv(s, base)
    ensures SystemInv(Runs(s, events), base)
    decreases |events|
  {
    if events == [] {
    } else {
      NextKeepsInv(s, events[0], base);
      RunsKeepInv(Next(s, events[0]), events[1..], base);
    }
  }

  /** At rest a well-marked request meets neither the lock nor a busy partition. */
  lemma RestAdmits(c: Core, base: Core, r: SfnReq)
    requires Booted(base) && SameSkeleton(c, base) && WellIndexed(c)
    requires r.SfnReq? ==> r.nsCaller && r.excNum == EXC_NUM_SVCALL && Registered(c, r.spId)
    ensures c.running == NON_SECURE_ID && c.lock == 0 && c.rows[NON_SECURE_ID].state == Running
    ensures Admission(c, r) ==
            if r.NullReq? || r.spId == 0 || r.sfn == 0 then InvalidParameter
            else if r.spId == CORE_ID then LockFailed
            else Success
  {
    assert forall i :: 0 <= i < |c.rows| ==> Skeleton(c.rows[i]) == Skeleton(base.rows[i]);
    if r.SfnReq? && r.spId != 0 {
      var callee := PartitionIdx(c.rows, r.spId);
      assert c.rows[callee].id == base.rows[callee].id == r.spId;
      assert c.rows[callee].state == base.rows[callee].state;
      assert callee != 0;
      assert callee == CORE_ID <==> r.spId == CORE_ID;
    }
  }

  function AllOutside(threads: set<nat>): map<nat, Place> {
    map t | t in threads :: Outside
  }

  /** For any number of threads and any interleaving, a request that reaches the secure side finds the
      non-secure partition running and the big lock free: it is never refused as locked or re-entrant,
      and it is accepted exactly when it is well formed and does not name the closed core partition. */
  lemma EveryEntryFindsSecureSideAtRest(base: Core, threads: set<nat>, events: seq<Event>, t: nat)
    requires Booted(base)
    requires var s := Runs(System(false, Free, AllOutside(threads), Start(base)), events);
             t in s.places && s.places[t].Holding?
    ensures
      var s := Runs(System(false, Free, AllOutside(threads), Start(base)), events);
      var c := s.machine.core;
      var r := s.places[t].req;
      && s.machine.frames == [] && c.running == NON_SECURE_ID && c.lock == 0
      && c.rows[NON_SECURE_ID].state == Running
      && (r.SfnReq? ==> Registered(c, r.spId))
      && Admission(c, r) != SecureDomainLocked && Admission(c, r) != NonReentrant
      && (Admission(c, r) == Success <==> r.SfnReq? && r.spId != 0 && r.sfn != 0 && r.spId != CORE_ID)
  {
    var s0 := System(false, Free, AllOutside(threads), Start(base));
    BootedInv(base);
    RunsKeepInv(s0, events, base);
    var s := Runs(s0, events);
    assert WellMarked(s, s.places[t]);
    assert s.machine.frames == [];
    RestAdmits(s.machine.core, base, s.places[t].req);
  }
}
