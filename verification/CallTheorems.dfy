/** What holds in every state the secure call machine reaches after boot. */
module CallTheorems {
  import opened Words
  import opened Distinct
  import opened PartitionDb
  import opened CallMachine
  import opened CallRuns

  /** The core boot hands over to the non-secure side. */
  ghost predicate Booted(c: Core) {
    && WellIndexed(c) && |c.rows| >= 2 && DistinctIds(c)
    && !c.initPhase && c.running == NON_SECURE_ID && c.lock == 0
    && (forall i :: 0 <= i < |c.rows| ==> c.rows[i].caller == INVALID_PARTITION_IDX)
    && c.rows[NON_SECURE_ID].id == NON_SECURE_ID && !c.rows[NON_SECURE_ID].secure
    && c.rows[CORE_ID].id == CORE_ID
    && c.rows[NON_SECURE_ID].state == Running
    && c.rows[CORE_ID].state == Closed
    && (forall i :: 2 <= i < |c.rows| ==> c.rows[i].state == Idle)
  }

  function Start(c: Core): Machine { Machine(c, [], NotHalted) }

  lemma BootedInv(c: Core)
    requires Booted(c)
    ensures Inv(Start(c), c) && Chain(Start(c)) == [NON_SECURE_ID]
  {
    assert Chain(Start(c)) == [NON_SECURE_ID];
    assert ChainShape(c, [NON_SECURE_ID]);
  }

  lemma {:induction false} RunKeepsInv(m: Machine, actions: seq<Action>, base: Core)
    requires Inv(m, base) && !m.core.initPhase
    ensures Inv(Run(m, actions), base) && !Run(m, actions).core.initPhase
    decreases |actions|
  {
    if actions == [] {
    } else {
      StepKeepsInv(m, actions[0], base);
      RunKeepsInv(Step(m, actions[0]), actions[1..], base);
    }
  }

  // ---- The caller links form one simple chain

  /** The partitions met when following caller links from `i`, at most `fuel` of them. */
  function WalkCallers(rows: seq<Row>, i: u32, fuel: nat): seq<u32>
    decreases fuel
  {
    if fuel == 0 || i >= |rows| then [] else [i] + WalkCallers(rows, rows[i].caller, fuel - 1)
  }

  function Reversed(s: seq<u32>): (r: seq<u32>)
    ensures |r| == |s|
  {
    seq(|s|, j requires 0 <= j < |s| => s[|s| - 1 - j])
  }

  lemma {:induction false} WalkIsChain(c: Core, ch: seq<u32>, k: nat, fuel: nat)
    requires k < |ch| && fuel > k && |c.rows| <= MAX_PARTITIONS
    requires ch[0] < |c.rows| && c.rows[ch[0]].caller == INVALID_PARTITION_IDX
    requires forall j {:trigger CalledByPrevious(c, ch, j)} :: 1 <= j < |ch| ==> CalledByPrevious(c, ch, j)
    ensures WalkCallers(c.rows, ch[k], fuel) == Reversed(ch[..k + 1])
  {
    if k == 0 {
      assert WalkCallers(c.rows, INVALID_PARTITION_IDX, fuel - 1) == [];
      assert Reversed(ch[..1]) == [ch[0]];
    } else {
      WalkIsChain(c, ch, k - 1, fuel - 1);
      assert CalledByPrevious(c, ch, k);
      assert [ch[k]] + Reversed(ch[..k]) == Reversed(ch[..k + 1]);
    }
  }

  /** Away from the chain nothing moved: those rows are as the resting core has them. */
  lemma {:induction false} OffChainAtRest(m: Machine, base: Core, i: nat, k: nat)
    requires FramesLinked(m) && SameSkeleton(CoreAt(m, 0), base)
    requires k <= |m.frames| && i < |base.rows| && i !in Chain(m)
    ensures |CoreAt(m, k).rows| == |base.rows|
    ensures Skeleton(CoreAt(m, k).rows[i]) == Skeleton(base.rows[i])
    decreases k
  {
    if k == 0 {
    } else {
      OffChainAtRest(m, base, i, k - 1);
      var f := m.frames[k - 1];
      assert LinkedAt(m, k - 1);
      assert f.callee == Chain(m)[k];
      RunningIsChained(m, k - 1);
    }
  }

  lemma RunningIsChained(m: Machine, k: nat)
    requires FramesLinked(m) && k <= |m.frames|
    ensures CoreAt(m, k).running == Chain(m)[k]
  {
    if k > 0 {
      assert LinkedAt(m, k - 1);
    }
  }

  /** The caller links from the running partition are one duplicate-free chain down to the
      non-secure partition; partition states and the lock describe exactly that chain, and
      every other partition is as boot left it. */
  ghost predicate DescribesOneChain(c: Core, base: Core) {
    var walk := WalkCallers(c.rows, c.running, |c.rows|);
    && |c.rows| == |base.rows|
    && |walk| == c.lock + 1 && 0 <= c.lock < |c.rows|
    && NoDuplicates(walk)
    && walk[0] == c.running && walk[|walk| - 1] == NON_SECURE_ID
    && (forall i :: 0 <= i < |c.rows| ==> (c.rows[i].state == Running <==> i == c.running))
    && (forall i :: 0 <= i < |c.rows| ==> (c.rows[i].state == Blocked <==> i in walk[1..]))
    && (forall i :: 0 <= i < |c.rows| && i !in walk ==>
          c.rows[i].state == base.rows[i].state && c.rows[i].caller == INVALID_PARTITION_IDX)
  }

  lemma CallChainInEveryState(base: Core, actions: seq<Action>)
    requires Booted(base)
    ensures DescribesOneChain(Run(Start(base), actions).core, base)
  {
    var m := Run(Start(base), actions);
    BootedInv(base);
    RunKeepsInv(Start(base), actions, base);
    ChainDescribed(m, base);
  }

  lemma ChainDescribed(m: Machine, base: Core)
    requires Booted(base) && Inv(m, base) && !m.core.initPhase
    ensures DescribesOneChain(m.core, base)
  {
    WalkIsWholeChain(m.core, Chain(m));
    StatesFollowWalk(m.core, Chain(m), WalkCallers(m.core.rows, m.core.running, |m.core.rows|));
    RunningIsChained(m, 0);
    RowCount(m, base, |m.frames|);
    RestOfRows(m, base, WalkCallers(m.core.rows, m.core.running, |m.core.rows|));
  }

  lemma WalkIsWholeChain(c: Core, ch: seq<u32>)
    requires ChainShape(c, ch)
    ensures WalkCallers(c.rows, c.running, |c.rows|) == Reversed(ch) && |ch| <= |c.rows|
  {
    DistinctIndicesFit(ch, |c.rows|);
    WalkIsChain(c, ch, |ch| - 1, |c.rows|);
    assert ch[..|ch|] == ch;
  }

  lemma RestOfRows(m: Machine, base: Core, walk: seq<u32>)
    requires FramesLinked(m) && SameSkeleton(CoreAt(m, 0), base) && walk == Reversed(Chain(m))
    requires |m.core.rows| == |base.rows|
    requires forall i :: 0 <= i < |base.rows| ==> base.rows[i].caller == INVALID_PARTITION_IDX
    ensures forall i :: 0 <= i < |base.rows| && i !in walk ==>
              m.core.rows[i].state == base.rows[i].state && m.core.rows[i].caller == INVALID_PARTITION_IDX
  {
    forall i | 0 <= i < |base.rows| && i !in walk
      ensures m.core.rows[i].state == base.rows[i].state && m.core.rows[i].caller == INVALID_PARTITION_IDX
    {
      var ch := Chain(m);
      assert forall k :: 0 <= k < |ch| ==> ch[k] == walk[|ch| - 1 - k];
      OffChainAtRest(m, base, i, |m.frames|);
    }
  }

  lemma {:induction false} RowCount(m: Machine, base: Core, k: nat)
    requires FramesLinked(m) && SameSkeleton(CoreAt(m, 0), base) && k <= |m.frames|
    ensures |CoreAt(m, k).rows| == |base.rows|
    decreases k
  {
    if k == 0 {
    } else {
      RowCount(m, base, k - 1);
      assert LinkedAt(m, k - 1);
    }
  }

  /** What the database set-up wrote stays: identifiers, flags, init functions and stack areas. */
  lemma {:induction false} StaticKept(m: Machine, base: Core, k: nat, i: nat)
    requires FramesLinked(m) && SameSkeleton(CoreAt(m, 0), base) && k <= |m.frames| && i < |base.rows|
    ensures |CoreAt(m, k).rows| == |base.rows| && SameStatic(CoreAt(m, k).rows[i], base.rows[i])
    decreases k
  {
    if k == 0 {
      assert Skeleton(CoreAt(m, 0).rows[i]) == Skeleton(base.rows[i]);
      SkeletonFields(CoreAt(m, 0).rows[i], base.rows[i]);
    } else {
      StaticKept(m, base, k - 1, i);
      assert LinkedAt(m, k - 1);
      CallKeepsStatic(m.frames[k - 1], CoreAt(m, k), i);
    }
  }

  lemma CallKeepsStatic(f: Frame, c: Core, i: nat)
    requires Linked(f, c) && i < |f.before.rows|
    ensures i < |c.rows| && SameStatic(c.rows[i], f.before.rows[i])
  {
    assert Skeleton(c.rows[i]) == Skeleton(RowInCall(f, i));
    SkeletonFields(c.rows[i], RowInCall(f, i));
  }

  lemma StaticInEveryState(base: Core, actions: seq<Action>, i: nat)
    requires Booted(base) && i < |base.rows|
    ensures |Run(Start(base), actions).core.rows| == |base.rows|
    ensures SameStatic(Run(Start(base), actions).core.rows[i], base.rows[i])
  {
    BootedInv(base);
    RunKeepsInv(Start(base), actions, base);
    StaticKept(Run(Start(base), actions), base, |Run(Start(base), actions).frames|, i);
  }

  lemma StatesFollowWalk(c: Core, ch: seq<u32>, walk: seq<u32>)
    requires ChainShape(c, ch) && walk == Reversed(ch) && !c.initPhase
    ensures forall i :: 0 <= i < |c.rows| ==> (c.rows[i].state == Running <==> i == c.running)
    ensures forall i :: 0 <= i < |c.rows| ==> (c.rows[i].state == Blocked <==> i in walk[1..])
    ensures NoDuplicates(walk)
  {
    forall i | 0 <= i < |c.rows|
      ensures c.rows[i].state == Running <==> i == c.running
      ensures c.rows[i].state == Blocked <==> i in walk[1..]
    {
      if i in ch {
        var k :| 0 <= k < |ch| && ch[k] == i;
        if k < |ch| - 1 {
          assert walk[1..][|ch| - 2 - k] == i;
        }
      } else {
        assert OffChain(c.rows[i]);
        assert i !in walk[1..];
      }
    }
  }
}
