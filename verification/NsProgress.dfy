/** Which threads get through the dispatcher: none before the lock is initialised or with a service number out of
    range, and every waiting one as long as no secure function has halted the system. */
module NsProgress {
  import opened Words
  import opened PartitionDb
  import opened CallMachine
  import opened CallRuns
  import opened CallTheorems
  import opened NsLock

  // ---- A waiting thread can get in

  predicate IsWaiting(s: System, t: nat) { t in s.places && s.places[t].Waiting? }

  /** How many events the owner of the mutex is away from giving it back. */
  function Distance(s: System): nat {
    if s.owner.Free? || s.owner.thread !in s.places then 0
    else if s.places[s.owner.thread].Leaving? then 1
    else 2 + |s.machine.frames|
  }

  /** One event that brings the owner closer to giving the mutex back. */
  function NextOfOwner(s: System): Event {
    if s.owner.Free? || s.owner.thread !in s.places then InitLock
    else match s.places[s.owner.thread]
      case Holding(_) => LocalService(s.owner.thread)
      case InSecure => Secure(Return(0, 0))
      case _ => Release(s.owner.thread)
  }

  lemma OwnerProceeds(s: System, base: Core, t: nat)
    requires Exclusive(s) && Inv(s.machine, base) && !s.machine.core.initPhase
    requires s.machine.halt == NotHalted && IsWaiting(s, t) && s.owner.HeldBy?
    ensures var s' := Next(s, NextOfOwner(s));
            && s'.machine.halt == NotHalted && IsWaiting(s', t) && s'.places[t] == s.places[t]
            && Distance(s') < Distance(s)
  {
    var p := s.places[s.owner.thread];
    assert Inside(p);
    if p.InSecure? {
      assert NextOfOwner(s) == Secure(Return(0, 0));
      ReturnPops(s.machine, base);
      SecureReturns(s, t);
    } else {
      OwnerLeaves(s, t);
    }
  }

  lemma ReturnPops(m: Machine, base: Core)
    requires Inv(m, base) && !m.core.initPhase && m.halt == NotHalted && m.frames != []
    ensures var m' := Step(m, Return(0, 0)); m'.halt == NotHalted && m'.frames == Below(m)
  {
    ReturnKeepsInv(m, 0, 0, base);
  }

  lemma SecureReturns(s: System, t: nat)
    requires WellIndexed(s.machine.core) && IsWaiting(s, t) && s.owner.HeldBy? && s.owner.thread in s.places
    requires s.places[s.owner.thread].InSecure? && s.machine.frames != []
    requires var m' := Step(s.machine, Return(0, 0)); m'.halt == NotHalted && m'.frames == Below(s.machine)
    ensures var s' := Next(s, Secure(Return(0, 0)));
            && s'.machine.halt == NotHalted && IsWaiting(s', t) && s'.places[t] == s.places[t]
            && Distance(s') < Distance(s)
  {
  }

  lemma OwnerLeaves(s: System, t: nat)
    requires WellIndexed(s.machine.core) && IsWaiting(s, t) && s.owner.HeldBy? && s.owner.thread in s.places
    requires s.places[s.owner.thread].Holding? || s.places[s.owner.thread].Leaving?
    ensures var s' := Next(s, NextOfOwner(s));
            s'.machine == s.machine && IsWaiting(s', t) && s'.places[t] == s.places[t] && Distance(s') < Distance(s)
  {
  }

  lemma {:induction false} WaiterGetsIn(s: System, base: Core, t: nat) returns (more: seq<Event>)
    requires SystemInv(s, base) && s.machine.halt == NotHalted && IsWaiting(s, t)
    ensures t in Runs(s, more).places && Runs(s, more).places[t] == Holding(s.places[t].req)
    decreases Distance(s)
  {
    if s.owner.Free? {
      more := [Acquire(t)];
      assert more[1..] == [];
    } else {
      var e := NextOfOwner(s);
      OwnerProceeds(s, base, t);
      NextKeepsInv(s, e, base);
      var rest := WaiterGetsIn(Next(s, e), base, t);
      more := [e] + rest;
      assert more[1..] == rest;
    }
  }

  // ---- After a halt nobody gets in

  lemma HaltFreezes(s: System, e: Event, t: nat)
    requires WellIndexed(s.machine.core) && Exclusive(s) && IsWaiting(s, t)
    requires s.machine.halt != NotHalted && s.machine.frames != []
    ensures var s' := Next(s, e); IsWaiting(s', t) && s'.machine == s.machine
  {
    assert s.places[s.owner.thread].InSecure?;
  }

  lemma {:induction false} HaltBlocks(s: System, events: seq<Event>, t: nat)
    requires WellIndexed(s.machine.core) && Exclusive(s) && IsWaiting(s, t)
    requires s.machine.halt != NotHalted && s.machine.frames != []
    ensures IsWaiting(Runs(s, events), t)
    decreases |events|
  {
    if events == [] {
    } else {
      HaltFreezes(s, events[0], t);
      NextKeepsExclusive(s, events[0]);
      HaltBlocks(Next(s, events[0]), events[1..], t);
    }
  }

  /** A halted secure function is one of the suspended requests. */
  predicate HaltsInside(m: Machine) { m.halt != NotHalted ==> m.frames != [] }

  lemma StepHaltsInside(m: Machine, a: Action)
    requires WellIndexed(m.core) && HaltsInside(m)
    ensures HaltsInside(Step(m, a))
  {
  }

  lemma {:induction false} RunsHaltInside(s: System, events: seq<Event>)
    requires WellIndexed(s.machine.core) && HaltsInside(s.machine)
    ensures HaltsInside(Runs(s, events).machine)
    decreases |events|
  {
    if events == [] {
    } else {
      var e := events[0];
      NextMachine(s, e);
      if Moves(s, e) {
        StepHaltsInside(s.machine, MachineAction(s, e));
      }
      RunsHaltInside(Next(s, e), events[1..]);
    }
  }

  function AtStart(base: Core, threads: set<nat>): System {
    System(false, Free, AllOutside(threads), Start(base))
  }

  lemma Reached(base: Core, threads: set<nat>, events: seq<Event>)
    requires Booted(base)
    ensures SystemInv(Runs(AtStart(base, threads), events), base)
    ensures HaltsInside(Runs(AtStart(base, threads), events).machine)
  {
    BootedInv(base);
    RunsKeepInv(AtStart(base, threads), events, base);
    RunsHaltInside(AtStart(base, threads), events);
  }

  /** At any point of any interleaving, a thread that waits for the mutex can still get it if and only if no secure
      function has halted the system. */
  lemma WaiterGetsInExactly(base: Core, threads: set<nat>, events: seq<Event>, t: nat)
    requires Booted(base) && IsWaiting(Runs(AtStart(base, threads), events), t)
    ensures var s := Runs(AtStart(base, threads), events);
            s.machine.halt == NotHalted <==>
            exists more :: t in Runs(s, more).places && Runs(s, more).places[t].Holding?
  {
    var s := Runs(AtStart(base, threads), events);
    Reached(base, threads, events);
    if s.machine.halt == NotHalted {
      var more := WaiterGetsIn(s, base, t);
    } else {
      forall more
        ensures IsWaiting(Runs(s, more), t)
      {
        HaltBlocks(s, more, t);
      }
    }
  }

  // ---- Who starts waiting

  predicate AtRest(s: System) {
    s.owner == Free && s.machine.frames == [] && forall t :: t in s.places ==> s.places[t] == Outside
  }

  lemma NextStaysAtRest(s: System, e: Event)
    requires WellIndexed(s.machine.core) && AtRest(s)
    requires e.Dispatch? ==> !s.lockInit || e.svcNum < 1 || e.svcNum > 10
    ensures Next(s, e) == s.(lockInit := s.lockInit || e.InitLock?)
  {
    if e.Secure? {
      assert !BySecureSide(s.machine, e.action);
    }
  }

  /** As long as the lock is not initialised, or all service numbers are outside 1 to 10, every thread stays outside
      and the secure side is not entered. */
  lemma {:induction false} NobodyGetsIn(s: System, events: seq<Event>)
    requires WellIndexed(s.machine.core) && AtRest(s)
    requires (!s.lockInit && InitLock !in events)
          || forall e :: e in events && e.Dispatch? ==> e.svcNum < 1 || e.svcNum > 10
    ensures Runs(s, events).places == s.places && Runs(s, events).machine == s.machine && Runs(s, events).owner == Free
    decreases |events|
  {
    if events == [] {
    } else {
      assert events[0] in events;
      NextStaysAtRest(s, events[0]);
      NobodyGetsIn(Next(s, events[0]), events[1..]);
    }
  }

  /** Once the lock is initialised, a thread outside that dispatches a service number from 1 to 10 waits with its
      request, marked as coming from a non-secure handler. */
  lemma DispatchWaits(s: System, t: nat, svcNum: nat, r: SfnReq)
    requires WellIndexed(s.machine.core) && s.lockInit && t in s.places && s.places[t] == Outside
    requires r.SfnReq? && Registered(s.machine.core, r.spId) && 1 <= svcNum <= 10
    ensures Next(s, Dispatch(t, svcNum, r)) ==
            s.(places := s.places[t := Waiting(SfnReq(r.spId, r.sfn, r.args, 11, true))])
  {
  }
}
