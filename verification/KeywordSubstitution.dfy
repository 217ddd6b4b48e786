/** The keyword substitution engine: key chains grouped by their next key and expanded into rows. */
module KeywordSubstitution {
  import opened Options
  import opened KeywordTree

  /** Places of chains in a row, each once. */
  predicate ValidChains(row: Row, chains: seq<nat>) {
    && (forall i :: 0 <= i < |chains| ==> chains[i] < |row| && row[chains[i]].Chain?)
    && (forall i, j :: 0 <= i < j < |chains| ==> chains[i] != chains[j])
  }

  lemma GroupStep(cs: seq<Pending>, c: Pending)
    ensures FirstKeys(cs + [c]) ==
            if c.keys == [] || c.keys[0] in FirstKeys(cs) then FirstKeys(cs) else FirstKeys(cs) + [c.keys[0]]
    ensures forall k :: Members(cs + [c], k) == if StartsWith(c, k) then Members(cs, k) + [c.pos] else Members(cs, k)
  {
    assert (cs + [c])[..|cs|] == cs;
  }

  lemma {:induction false} NoMembers(cs: seq<Pending>, key: string)
    requires key !in FirstKeys(cs)
    ensures Members(cs, key) == []
  {
    if cs == [] {
    } else {
      NoMembers(cs[..|cs| - 1], key);
    }
  }

  ghost predicate Grouped(cs: seq<Pending>, keys: seq<string>, groups: seq<seq<nat>>) {
    && keys == FirstKeys(cs) && |groups| == |keys|
    && forall g :: 0 <= g < |keys| ==> groups[g] == Members(cs, keys[g])
  }

  /** Puts one chain into the group of its key, or opens a new group. */
  method InsertChain(keys: seq<string>, groups: seq<seq<nat>>, chain: nat, key: string, ghost cs: seq<Pending>,
                     ghost c: Pending)
    returns (keys': seq<string>, groups': seq<seq<nat>>)
    requires Grouped(cs, keys, groups) && c.pos == chain && StartsWith(c, key)
    ensures Grouped(cs + [c], keys', groups')
  {
    var idx := 0;
    while idx < |keys|
      invariant 0 <= idx <= |keys| && key !in keys[..idx]
    {
      if keys[idx] == key {
        JoinsGroup(cs, c, keys, groups, idx);
        return keys, groups[idx := groups[idx] + [chain]];
      }
      idx := idx + 1;
    }
    assert keys[..idx] == keys;
    OpensGroup(cs, c, keys, groups);
    return keys + [key], groups + [[chain]];
  }

  lemma JoinsGroup(cs: seq<Pending>, c: Pending, keys: seq<string>, groups: seq<seq<nat>>, idx: nat)
    requires Grouped(cs, keys, groups) && idx < |keys| && StartsWith(c, keys[idx])
    ensures Grouped(cs + [c], keys, groups[idx := groups[idx] + [c.pos]])
  {
    GroupStep(cs, c);
    assert NoDuplicateKeys(keys) by {
      FirstKeysComplete(cs);
    }
    forall g | 0 <= g < |keys|
      ensures groups[idx := groups[idx] + [c.pos]][g] == Members(cs + [c], keys[g])
    {
      assert groups[g] == Members(cs, keys[g]);
    }
  }

  lemma OpensGroup(cs: seq<Pending>, c: Pending, keys: seq<string>, groups: seq<seq<nat>>)
    requires Grouped(cs, keys, groups) && c.keys != [] && c.keys[0] !in keys
    ensures Grouped(cs + [c], keys + [c.keys[0]], groups + [[c.pos]])
  {
    GroupStep(cs, c);
    NoMembers(cs, c.keys[0]);
    var keys', groups' := keys + [c.keys[0]], groups + [[c.pos]];
    forall g | 0 <= g < |keys'|
      ensures groups'[g] == Members(cs + [c], keys'[g])
    {
      if g < |keys| {
        assert groups[g] == Members(cs, keys[g]) && keys[g] in keys;
      }
    }
  }

  /** Groups the chains by first key, keys in order of first appearance; used-up chains are left out. */
  method GroupChains(row: Row, chains: seq<nat>) returns (keys: seq<string>, groups: seq<seq<nat>>)
    requires ValidChains(row, chains)
    ensures Grouped(PendingAt(row, chains), keys, groups)
  {
    keys, groups := [], [];
    ghost var cs, seen := PendingAt(row, chains), [];
    var i := 0;
    while i < |chains|
      invariant 0 <= i <= |chains| && seen == cs[..i]
      invariant Grouped(seen, keys, groups)
    {
      var chain := chains[i];
      if row[chain].keys != [] {
        keys, groups := InsertChain(keys, groups, chain, row[chain].keys[0], seen, cs[i]);
      } else {
        GroupStep(seen, cs[i]);
      }
      seen := seen + [cs[i]];
      i := i + 1;
    }
    assert cs[..i] == cs;
  }

  /** The row after the look-up of the first keys in `keys`. */
  function LookedUp(act: MissingKeys, items: map<string, Db>, row: Row, chains: seq<nat>, keys: seq<string>): (r: Row)
    requires ValidChains(row, chains)
    ensures |r| == |row|
  {
    seq(|row|, p requires 0 <= p < |row| =>
      if p in chains && row[p].keys != [] && row[p].keys[0] in keys
      then SettledSegment(act, items, row[p].keys) else row[p])
  }

  /** Looks the key of each group up; only groups that lead into a branch are kept. */
  method LookUp(act: MissingKeys, items: map<string, Db>, row: Row, ghost chains: seq<nat>,
                keys: seq<string>, groups: seq<seq<nat>>)
    returns (transient: Row, kept: seq<seq<nat>>)
    requires ValidChains(row, chains) && Grouped(PendingAt(row, chains), keys, groups)
    ensures transient == LookedUp(act, items, row, chains, keys)
    ensures |kept| == |groups|
    ensures forall g :: 0 <= g < |keys| ==> kept[g] == if IsBranch(items, keys[g]) then groups[g] else []
  {
    transient, kept := row, [];
    var g := 0;
    ghost var done: seq<string> := [];
    assert transient == LookedUp(act, items, row, chains, done);
    while g < |keys|
      invariant 0 <= g <= |keys| && |kept| == g && done == keys[..g]
      invariant transient == LookedUp(act, items, row, chains, done)
      invariant forall h :: 0 <= h < g ==> kept[h] == if IsBranch(items, keys[h]) then groups[h] else []
    {
      transient := SetGroup(act, items, row, transient, keys[g], groups[g], chains, done);
      kept := kept + [if IsBranch(items, keys[g]) then groups[g] else []];
      done := done + [keys[g]];
      g := g + 1;
    }
    assert done == keys;
  }

  /** What one look-up makes of a chain: a leaf's text, a shorter chain, or what a missing key gives. */
  method LookUpSegment(act: MissingKeys, items: map<string, Db>, keys: seq<string>) returns (segment: Segment)
    requires keys != []
    ensures segment == SettledSegment(act, items, keys)
  {
    var key := keys[0];
    if key in items {
      if items[key].Leaf? {
        segment := Text(items[key].text);
      } else {
        segment := Chain(keys[1..]);
      }
    } else {
      match act
      case Report =>
        segment := Chain(keys);
      case Replace(placeholder) =>
        segment := Text(placeholder);
    }
  }

  /** Rewrites the segments of one group: a leaf's text, a shorter chain, or what a missing key gives. */
  method SetGroup(act: MissingKeys, items: map<string, Db>, row: Row, was: Row, key: string, group: seq<nat>,
                  ghost chains: seq<nat>, ghost done: seq<string>)
    returns (transient: Row)
    requires ValidChains(row, chains) && group == Members(PendingAt(row, chains), key)
    requires was == LookedUp(act, items, row, chains, done)
    ensures transient == LookedUp(act, items, row, chains, done + [key])
  {
    MembersExact(row, chains, key);
    transient := was;
    var i := 0;
    while i < |group|
      invariant 0 <= i <= |group| && |transient| == |row|
      invariant forall p :: 0 <= p < |row| ==>
                  transient[p] == if p in group[..i] && row[p].Chain? then SettledSegment(act, items, row[p].keys)
                                  else was[p]
    {
      var chain := group[i];
      assert chain in group;
      var segment := LookUpSegment(act, items, row[chain].keys);
      transient := transient[chain := segment];
      assert group[..i + 1] == group[..i] + [chain];
      i := i + 1;
    }
    assert group[..i] == group;
    GroupSet(act, items, row, was, key, group, chains, done, transient);
  }

  /** With its group rewritten, the row is looked up for one more key. */
  lemma GroupSet(act: MissingKeys, items: map<string, Db>, row: Row, was: Row, key: string, group: seq<nat>,
                 chains: seq<nat>, done: seq<string>, transient: Row)
    requires ValidChains(row, chains) && group == Members(PendingAt(row, chains), key)
    requires was == LookedUp(act, items, row, chains, done) && |transient| == |row|
    requires forall p :: 0 <= p < |row| ==>
               transient[p] == if p in group && row[p].Chain? then SettledSegment(act, items, row[p].keys) else was[p]
    ensures transient == LookedUp(act, items, row, chains, done + [key])
  {
    MembersExact(row, chains, key);
    forall p | 0 <= p < |row|
      ensures transient[p] == LookedUp(act, items, row, chains, done + [key])[p]
    {
      assert p in group <==> p in chains && row[p].Chain? && row[p].keys != [] && row[p].keys[0] == key;
    }
  }

  lemma MembersExact(row: Row, chains: seq<nat>, key: string)
    requires ValidChains(row, chains)
    ensures forall p :: p in Members(PendingAt(row, chains), key) <==>
              p in chains && p < |row| && row[p].Chain? && row[p].keys != [] && row[p].keys[0] == key
  {
    var cs := PendingAt(row, chains);
    UnderMembers(cs, key);
    var ms := Members(cs, key);
    forall p | p in ms
      ensures p in chains && p < |row| && row[p].Chain? && row[p].keys != [] && row[p].keys[0] == key
    {
      var i :| 0 <= i < |ms| && ms[i] == p;
      assert Pending(ms[i], [key] + Under(cs, key)[i].keys) in cs;
    }
    forall p | p in chains && p < |row| && row[p].Chain? && row[p].keys != [] && row[p].keys[0] == key
      ensures p in ms
    {
      var i :| 0 <= i < |chains| && chains[i] == p;
      assert cs[i] in cs && StartsWith(cs[i], key);
      var c := Pending(p, row[p].keys[1..]);
      assert c in Under(cs, key);
      var j :| 0 <= j < |Under(cs, key)| && Under(cs, key)[j] == c;
      assert ms[j] == p;
    }
  }

  // ---- Forking

  lemma {:induction false} MembersDistinct(row: Row, chains: seq<nat>, key: string)
    requires ValidChains(row, chains)
    ensures forall i, j :: 0 <= i < j < |Members(PendingAt(row, chains), key)| ==>
              Members(PendingAt(row, chains), key)[i] != Members(PendingAt(row, chains), key)[j]
    decreases |chains|
  {
    var cs := PendingAt(row, chains);
    if chains == [] {
    } else {
      var most := chains[..|chains| - 1];
      assert PendingAt(row, most) == cs[..|cs| - 1];
      MembersDistinct(row, most, key);
      MembersExact(row, most, key);
    }
  }

  /** After the look-up, the chains of a branch group are one key shorter: they are pending under that key. */
  lemma TransientPending(act: MissingKeys, items: map<string, Db>, row: Row, chains: seq<nat>, transient: Row,
                         key: string)
    requires ValidChains(row, chains) && IsBranch(items, key)
    requires key in FirstKeys(PendingAt(row, chains))
    requires transient == LookedUp(act, items, row, chains, FirstKeys(PendingAt(row, chains)))
    ensures var group := Members(PendingAt(row, chains), key);
            && ValidChains(transient, group)
            && PendingAt(transient, group) == Under(PendingAt(row, chains), key)
  {
    var cs := PendingAt(row, chains);
    var group, u := Members(cs, key), Under(cs, key);
    MembersDistinct(row, chains, key);
    MembersExact(row, chains, key);
    UnderMembers(cs, key);
    forall i | 0 <= i < |group|
      ensures group[i] < |transient| && transient[group[i]] == Chain(u[i].keys)
    {
      assert group[i] in group;
      PendingKeys(row, chains, Pending(group[i], [key] + u[i].keys));
      assert ([key] + u[i].keys)[1..] == u[i].keys;
    }
  }

  lemma PendingKeys(row: Row, chains: seq<nat>, c: Pending)
    requires ValidChains(row, chains) && c in PendingAt(row, chains)
    ensures c.pos in chains && c.pos < |row| && row[c.pos] == Chain(c.keys)
  {
  }

  /** A row that other branches already filled in still has this branch's chains as they were. */
  lemma FilledPending(transient: Row, group: seq<nat>, a: Assignment)
    requires ValidChains(transient, group) && forall p :: p in group ==> p !in a
    ensures ValidChains(ApplyTo(transient, a), group)
    ensures PendingAt(ApplyTo(transient, a), group) == PendingAt(transient, group)
  {
    var filled := ApplyTo(transient, a);
    forall i | 0 <= i < |group|
      ensures filled[group[i]] == transient[group[i]]
    {
      assert group[i] in group;
    }
  }

  lemma CombineNext(xs: seq<Assignment>, i: nat, ys: seq<Assignment>)
    requires i < |xs|
    ensures Combine(xs[..i + 1], ys) == Combine(xs[..i], ys) + Extend(xs[i], ys)
  {
    assert xs[..i + 1][..i] == xs[..i];
  }

  lemma CombineUnit(ys: seq<Assignment>)
    ensures Combine([map[]], ys) == ys
  {
    var m: Assignment := map[];
    assert [m][..0] == [];
    assert Combine([m], ys) == Combine([], ys) + Extend(m, ys);
    assert forall i :: 0 <= i < |ys| ==> m + ys[i] == ys[i];
  }

  /** None of the assignments concerns a place of the group. */
  ghost predicate Elsewhere(xs: seq<Assignment>, group: seq<nat>) {
    forall i, p :: 0 <= i < |xs| && p in group ==> p !in xs[i]
  }

  /** Expands the group in every row found so far. */
  method ExpandEach(act: MissingKeys, outlist: seq<Row>, group: seq<nat>, sub: Db,
                    ghost transient: Row, ghost xs: seq<Assignment>, ghost u: seq<Pending>)
    returns (out: Option<seq<Row>>)
    requires outlist == ApplyAll(transient, xs)
    requires ValidChains(transient, group) && PendingAt(transient, group) == u
    requires Elsewhere(xs, group)
    ensures out == if xs != [] && LeafReached(act, sub, u) then None
                   else Some(ApplyAll(transient, Combine(xs, Solutions(act, sub, u))))
    decreases sub, 4
  {
    ghost var sols := Solutions(act, sub, u);
    out := Some([]);
    var i := 0;
    while i < |outlist|
      invariant 0 <= i <= |outlist| == |xs|
      invariant out == if i > 0 && LeafReached(act, sub, u) then None
                       else Some(ApplyAll(transient, Combine(xs[..i], sols)))
    {
      FilledPending(transient, group, xs[i]);
      var rows := Substitute(act, outlist[i], group, sub);
      CombineNext(xs, i, sols);
      ApplyExtend(transient, xs[i], sols);
      ApplyAllConcat(transient, Combine(xs[..i], sols), Extend(xs[i], sols));
      out := if out.Some? && rows.Some? then Some(out.value + rows.value) else None;
      i := i + 1;
    }
    assert xs[..i] == xs;
  }

  lemma BranchKeysNext(items: map<string, Db>, keys: seq<string>, g: nat)
    requires g < |keys|
    ensures BranchKeys(items, keys[..g + 1]) ==
            if IsBranch(items, keys[g]) then BranchKeys(items, keys[..g]) + [keys[g]] else BranchKeys(items, keys[..g])
  {
    assert keys[..g + 1][..g] == keys[..g];
  }

  /** Solutions of the branches before `key` leave the chains under `key` alone. */
  lemma EarlierBranchesElsewhere(act: MissingKeys, db: Db, row: Row, chains: seq<nat>, keys: seq<string>, key: string)
    requires db.Dict? && ValidChains(row, chains) && key !in keys && forall k :: k in keys ==> k in db.items
    ensures var cs := PendingAt(row, chains);
            Elsewhere(BranchSolutions(act, db, cs, keys), Members(cs, key))
  {
    var cs := PendingAt(row, chains);
    var xs := BranchSolutions(act, db, cs, keys);
    BranchSolutionsCover(act, db, cs, keys);
    MembersExact(row, chains, key);
    forall i, p | 0 <= i < |xs| && p in Members(cs, key)
      ensures p !in xs[i]
    {
      if p in xs[i] {
        assert p in PlacesUnder(cs, keys);
        var c :| c in cs && c.keys != [] && c.keys[0] in keys && c.pos == p;
        PendingKeys(row, chains, c);
        assert false;
      }
    }
  }

  lemma BranchKeysBefore(items: map<string, Db>, keys: seq<string>, g: nat)
    requires g < |keys| && NoDuplicateKeys(keys)
    ensures keys[g] !in BranchKeys(items, keys[..g])
    ensures forall k :: k in BranchKeys(items, keys[..g]) ==> k in items
  {
    BranchKeysExact(items, keys[..g]);
  }

  /** `out` is the row expanded by the branches `bs`. */
  ghost predicate Expanded(act: MissingKeys, db: Db, cs: seq<Pending>, bs: seq<string>, transient: Row,
                           out: Option<seq<Row>>)
    requires db.Dict?
  {
    out == if BranchReached(act, db, cs, bs) then None else Some(ApplyAll(transient, BranchSolutions(act, db, cs, bs)))
  }

  lemma NothingExpanded(act: MissingKeys, db: Db, cs: seq<Pending>, transient: Row)
    requires db.Dict?
    ensures Expanded(act, db, cs, [], transient, Some([transient]))
  {
    var unit: Assignment := map[];
    assert ApplyTo(transient, unit) == transient;
    assert ApplyAll(transient, [unit]) == [transient];
  }

  /** Goes through the kept groups in order; the first one replaces the row, the others expand every row. */
  method Fork(act: MissingKeys, db: Db, row: Row, chains: seq<nat>, transient: Row,
              keys: seq<string>, kept: seq<seq<nat>>)
    returns (out: Option<seq<Row>>)
    requires db.Dict? && ValidChains(row, chains) && keys == FirstKeys(PendingAt(row, chains)) && |kept| == |keys|
    requires transient == LookedUp(act, db.items, row, chains, keys)
    requires forall g :: 0 <= g < |keys| ==>
               kept[g] == if IsBranch(db.items, keys[g]) then Members(PendingAt(row, chains), keys[g]) else []
    ensures Expanded(act, db, PendingAt(row, chains), BranchKeys(db.items, keys), transient, out)
    decreases db, 1
  {
    ghost var cs := PendingAt(row, chains);
    out := Some([transient]);
    NothingExpanded(act, db, cs, transient);
    var forked := false;
    var g := 0;
    ghost var bs := [];
    while g < |kept|
      invariant 0 <= g <= |kept| && bs == BranchKeys(db.items, keys[..g])
      invariant (forked <==> bs != []) && Expanded(act, db, cs, bs, transient, out)
    {
      out, forked, bs := ForkGroup(act, db, row, chains, transient, keys, kept[g], g, out, forked, bs);
      g := g + 1;
    }
    assert keys[..g] == keys;
  }

  /** Forks into the group if it was kept. */
  method ForkGroup(act: MissingKeys, db: Db, row: Row, chains: seq<nat>, transient: Row, keys: seq<string>,
                   group: seq<nat>, g: nat, was: Option<seq<Row>>, forkedBefore: bool, ghost bs: seq<string>)
    returns (out: Option<seq<Row>>, forked: bool, ghost bs': seq<string>)
    requires db.Dict? && ValidChains(row, chains) && keys == FirstKeys(PendingAt(row, chains)) && g < |keys|
    requires transient == LookedUp(act, db.items, row, chains, keys)
    requires group == if IsBranch(db.items, keys[g]) then Members(PendingAt(row, chains), keys[g]) else []
    requires bs == BranchKeys(db.items, keys[..g]) && (forkedBefore <==> bs != [])
    requires Expanded(act, db, PendingAt(row, chains), bs, transient, was)
    ensures bs' == BranchKeys(db.items, keys[..g + 1])
    ensures forked <==> BranchKeys(db.items, keys[..g + 1]) != []
    ensures Expanded(act, db, PendingAt(row, chains), BranchKeys(db.items, keys[..g + 1]), transient, out)
    decreases db, 0, 1
  {
    GroupReady(db.items, PendingAt(row, chains), keys, group, g, bs);
    out, forked, bs' := was, forkedBefore, bs;
    if group != [] {
      out := ForkInto(act, db, row, chains, transient, keys, keys[g], group, was, forkedBefore, bs);
      forked := true;
      bs' := bs + [keys[g]];
    }
  }

  /** A kept group leads into a branch not met before; a group that is not kept into none. */
  lemma GroupReady(items: map<string, Db>, cs: seq<Pending>, keys: seq<string>, group: seq<nat>, g: nat, bs: seq<string>)
    requires keys == FirstKeys(cs) && g < |keys| && bs == BranchKeys(items, keys[..g])
    requires group == if IsBranch(items, keys[g]) then Members(cs, keys[g]) else []
    ensures group != [] <==> IsBranch(items, keys[g])
    ensures keys[g] !in bs && forall k :: k in bs ==> k in items
    ensures BranchKeys(items, keys[..g + 1]) == if group != [] then bs + [keys[g]] else bs
  {
    assert NoDuplicateKeys(keys) by {
      FirstKeysComplete(cs);
    }
    KeptUnlessLeaf(cs, keys, g);
    BranchKeysNext(items, keys, g);
    BranchKeysBefore(items, keys, g);
  }

  /** A first key has at least one chain. */
  lemma KeptUnlessLeaf(cs: seq<Pending>, keys: seq<string>, g: nat)
    requires keys == FirstKeys(cs) && g < |keys|
    ensures Members(cs, keys[g]) != []
  {
    FirstKeysComplete(cs);
    assert keys[g] in keys;
    var c :| c in cs && StartsWith(c, keys[g]);
    UnderMembers(cs, keys[g]);
  }

  /** One kept group. */
  method ForkInto(act: MissingKeys, db: Db, row: Row, chains: seq<nat>, transient: Row, keys: seq<string>,
                  key: string, group: seq<nat>, was: Option<seq<Row>>, forked: bool, ghost bs: seq<string>)
    returns (out: Option<seq<Row>>)
    requires db.Dict? && ValidChains(row, chains) && keys == FirstKeys(PendingAt(row, chains))
    requires transient == LookedUp(act, db.items, row, chains, keys)
    requires key in keys && IsBranch(db.items, key) && group == Members(PendingAt(row, chains), key)
    requires key !in bs && (forall k :: k in bs ==> k in db.items) && (forked <==> bs != [])
    requires Expanded(act, db, PendingAt(row, chains), bs, transient, was)
    ensures Expanded(act, db, PendingAt(row, chains), bs + [key], transient, out)
    decreases db, 0, 0
  {
    ghost var cs := PendingAt(row, chains);
    ghost var xs := BranchSolutions(act, db, cs, bs);
    TransientPending(act, db.items, row, chains, transient, key);
    if !forked {
      out := Substitute(act, transient, group, db.items[key]);
      FirstExpanded(act, db, cs, bs, key, transient, out);
    } else if was.Some? {
      assert was.value == ApplyAll(transient, xs);
      EarlierBranchesElsewhere(act, db, row, chains, bs, key);
      out := ExpandEach(act, was.value, group, db.items[key], transient, xs, Under(cs, key));
      NextExpanded(act, db, cs, bs, key, transient, was, out);
    } else {
      out := None;
      NeverExpanded(act, db, cs, bs, key, transient);
    }
  }

  lemma FirstExpanded(act: MissingKeys, db: Db, cs: seq<Pending>, bs: seq<string>, key: string, transient: Row,
                      out: Option<seq<Row>>)
    requires db.Dict? && bs == [] && key in db.items
    requires out == if LeafReached(act, db.items[key], Under(cs, key)) then None
                    else Some(ApplyAll(transient, Solutions(act, db.items[key], Under(cs, key))))
    ensures Expanded(act, db, cs, bs + [key], transient, out)
  {
    assert (bs + [key])[..0] == [];
    CombineUnit(Solutions(act, db.items[key], Under(cs, key)));
  }

  lemma NextExpanded(act: MissingKeys, db: Db, cs: seq<Pending>, bs: seq<string>, key: string, transient: Row,
                     was: Option<seq<Row>>, out: Option<seq<Row>>)
    requires db.Dict? && key in db.items && was.Some? && Expanded(act, db, cs, bs, transient, was)
    requires var xs := BranchSolutions(act, db, cs, bs);
             out == if xs != [] && LeafReached(act, db.items[key], Under(cs, key)) then None
                    else Some(ApplyAll(transient, Combine(xs, Solutions(act, db.items[key], Under(cs, key)))))
    ensures Expanded(act, db, cs, bs + [key], transient, out)
  {
    assert (bs + [key])[..|bs|] == bs;
  }

  lemma NeverExpanded(act: MissingKeys, db: Db, cs: seq<Pending>, bs: seq<string>, key: string, transient: Row)
    requires db.Dict? && Expanded(act, db, cs, bs, transient, None)
    ensures Expanded(act, db, cs, bs + [key], transient, None)
  {
    assert (bs + [key])[..|bs|] == bs;
  }

  /** The rows over settled chains and branch solutions are the rows of the whole dictionary. */
  lemma DictRows(act: MissingKeys, items: map<string, Db>, row: Row, chains: seq<nat>)
    requires ValidChains(row, chains)
    ensures var cs := PendingAt(row, chains);
            var keys := FirstKeys(cs);
            var sols := BranchSolutions(act, Dict(items), cs, BranchKeys(items, keys));
            ApplyAll(LookedUp(act, items, row, chains, keys), sols) == ApplyAll(row, Extend(Settled(act, items, cs), sols))
  {
    var cs := PendingAt(row, chains);
    var keys := FirstKeys(cs);
    var bs := BranchKeys(items, keys);
    var sols := BranchSolutions(act, Dict(items), cs, bs);
    BranchKeysExact(items, keys);
    BranchSolutionsCover(act, Dict(items), cs, bs);
    forall i | 0 <= i < |sols|
      ensures ApplyTo(LookedUp(act, items, row, chains, keys), sols[i])
              == ApplyTo(row, Settled(act, items, cs) + sols[i])
    {
      DictRow(act, items, row, chains, sols[i]);
    }
  }

  lemma DictRow(act: MissingKeys, items: map<string, Db>, row: Row, chains: seq<nat>, a: Assignment)
    requires ValidChains(row, chains)
    requires a.Keys == PlacesUnder(PendingAt(row, chains), BranchKeys(items, FirstKeys(PendingAt(row, chains))))
    ensures ApplyTo(LookedUp(act, items, row, chains, FirstKeys(PendingAt(row, chains))), a)
            == ApplyTo(row, Settled(act, items, PendingAt(row, chains)) + a)
  {
    var cs := PendingAt(row, chains);
    var settled := Settled(act, items, cs);
    var looked := LookedUp(act, items, row, chains, FirstKeys(cs));
    forall p | 0 <= p < |row| && p !in a
      ensures looked[p] == if p in settled then settled[p] else row[p]
    {
      if p in chains {
        ChainCell(act, items, row, chains, p);
      } else {
        LiteralCell(act, items, row, chains, p);
      }
    }
  }

  lemma ChainCell(act: MissingKeys, items: map<string, Db>, row: Row, chains: seq<nat>, p: nat)
    requires ValidChains(row, chains) && p in chains
    requires p !in PlacesUnder(PendingAt(row, chains), BranchKeys(items, FirstKeys(PendingAt(row, chains))))
    ensures var cs := PendingAt(row, chains);
            && p < |row| && p in Settled(act, items, cs)
            && LookedUp(act, items, row, chains, FirstKeys(cs))[p] == Settled(act, items, cs)[p]
  {
    var cs := PendingAt(row, chains);
    FirstKeysComplete(cs);
    BranchKeysExact(items, FirstKeys(cs));
    var i :| 0 <= i < |chains| && chains[i] == p;
    assert cs[i] in cs;
    SettledValues(act, items, cs, i);
  }

  lemma LiteralCell(act: MissingKeys, items: map<string, Db>, row: Row, chains: seq<nat>, p: nat)
    requires ValidChains(row, chains) && p !in chains
    ensures p !in Settled(act, items, PendingAt(row, chains))
  {
    var cs := PendingAt(row, chains);
    SettledKeys(act, items, cs);
    forall c | c in cs
      ensures c.pos != p
    {
      PendingKeys(row, chains, c);
    }
  }

  /** `substitute`: the rows a template row stands for, over the chains at the given places. `None` where the
      source returns something that is not a list of rows. */
  method Substitute(act: MissingKeys, row: Row, chains: seq<nat>, db: Db) returns (out: Option<seq<Row>>)
    requires ValidChains(row, chains)
    ensures out == if LeafReached(act, db, PendingAt(row, chains)) then None
                   else Some(ApplyAll(row, Solutions(act, db, PendingAt(row, chains))))
    decreases db, 3
  {
    ghost var cs := PendingAt(row, chains);
    match db
    case Leaf(_) =>
      return None;
    case List(elements) =>
      out := Some([]);
      var n := 0;
      while n < |elements|
        invariant 0 <= n <= |elements|
        invariant out == if ListReached(act, db, cs, n) then None
                         else Some(ApplyAll(row, ListSolutions(act, db, cs, n)))
      {
        var rows := Substitute(act, row, chains, elements[n]);
        ApplyAllConcat(row, ListSolutions(act, db, cs, n), Solutions(act, elements[n], cs));
        out := if out.Some? && rows.Some? then Some(out.value + rows.value) else None;
        n := n + 1;
      }
    case Dict(items) =>
      var keys, groups := GroupChains(row, chains);
      var transient, kept := LookUp(act, items, row, chains, keys, groups);
      out := Fork(act, db, row, chains, transient, keys, kept);
      DictRows(act, items, row, chains);
  }

  /** `keyword_substitute`: every chain of the line is pending. */
  method KeywordSubstitute(act: MissingKeys, row: Row, db: Db) returns (out: Option<seq<Row>>)
    ensures out == if LeafReached(act, db, PendingAt(row, ChainPlaces(row))) then None
                   else Some(ApplyAll(row, Solutions(act, db, PendingAt(row, ChainPlaces(row)))))
  {
    var chains := [];
    var i := 0;
    while i < |row|
      invariant 0 <= i <= |row| && chains == ChainPlaces(row[..i])
    {
      assert row[..i + 1][..i] == row[..i];
      if row[i].Chain? {
        chains := chains + [i];
      }
      i := i + 1;
    }
    assert row[..i] == row;
    out := Substitute(act, row, chains, db);
  }

  function ChainPlaces(row: Row): (ps: seq<nat>)
    ensures ValidChains(row, ps)
    ensures forall p: nat :: p in ps <==> p < |row| && row[p].Chain?
  {
    if row == [] then []
    else
      var before := ChainPlaces(row[..|row| - 1]);
      if row[|row| - 1].Chain? then before + [|row| - 1] else before
  }

  /** Every row of the result is as long as the template row and keeps its literal segments. */
  lemma RowsKeepLiterals(act: MissingKeys, row: Row, db: Db, i: nat)
    requires i < |Solutions(act, db, PendingAt(row, ChainPlaces(row)))|
    ensures var out := ApplyAll(row, Solutions(act, db, PendingAt(row, ChainPlaces(row))))[i];
            && |out| == |row|
            && forall p :: 0 <= p < |row| && row[p].Text? ==> out[p] == row[p]
  {
    var cs := PendingAt(row, ChainPlaces(row));
    SolutionsCover(act, db, cs);
    forall p | p in Positions(cs)
      ensures p in ChainPlaces(row)
    {
      var c :| c in cs && c.pos == p;
      PendingKeys(row, ChainPlaces(row), c);
    }
  }
}
