/** The order of keyword substitution: the rows are listed by their picks, earlier list elements first, and where
    several dictionary entries fork, the one whose chain stands first in the row varies slowest. Every pick gives
    one row. */
module KeywordOrder {
  import opened KeywordTree
  import opened KeywordSubstitution
  import opened KeywordChoices

  /** `p` takes an earlier list element than `q` at the first chain that tells them apart. */
  ghost predicate Before(db: Db, cs: seq<Pending>, p: Pick, q: Pick)
    decreases db, 2
  {
    match db
    case Leaf(_) => false
    case List(elements) =>
      && p.InList? && q.InList? && p.index < |elements| && q.index < |elements|
      && (p.index < q.index || (p.index == q.index && Before(elements[p.index], cs, p.pick, q.pick)))
    case Dict(items) =>
      p.InDict? && q.InDict? && exists n :: FirstDifference(db, cs, p.picks, q.picks, n)
  }

  /** The chains before the one numbered `n` do not tell the picks apart; that one puts `f` before `g`. */
  ghost predicate FirstDifference(db: Db, cs: seq<Pending>, f: map<string, Pick>, g: map<string, Pick>, n: nat)
    requires db.Dict?
    decreases db, 1
  {
    && n < |cs| && LeadsInto(db.items, cs[n]) && BeforeUnder(db, cs, cs[n].keys[0], f, g)
    && forall j :: 0 <= j < n && LeadsInto(db.items, cs[j]) ==> SameUnder(db, cs, cs[j].keys[0], f, g)
  }

  ghost predicate BeforeUnder(db: Db, cs: seq<Pending>, k: string, f: map<string, Pick>, g: map<string, Pick>)
    requires db.Dict?
    decreases db, 0
  {
    k in db.items && k in f && k in g && Before(db.items[k], Under(cs, k), f[k], g[k])
  }

  ghost predicate Ordered(db: Db, cs: seq<Pending>, ps: seq<Pick>) {
    forall i, j :: 0 <= i < j < |ps| ==> Before(db, cs, ps[i], ps[j])
  }

  // ---- The order is strict

  /** A pick that comes before another does not agree with it. */
  lemma {:induction false} BeforeDiffers(db: Db, cs: seq<Pending>, p: Pick, q: Pick)
    requires Before(db, cs, p, q)
    ensures !SamePick(db, cs, p, q)
    decreases db
  {
    match db
    case List(elements) =>
      if p.index == q.index {
        BeforeDiffers(elements[p.index], cs, p.pick, q.pick);
      }
    case Dict(items) =>
      var n: nat :| FirstDifference(db, cs, p.picks, q.picks, n);
      var k := cs[n].keys[0];
      assert BeforeUnder(db, cs, k, p.picks, q.picks);
      BeforeDiffers(items[k], Under(cs, k), p.picks[k], q.picks[k]);
      assert !SameUnder(db, cs, k, p.picks, q.picks);
  }

  lemma {:induction false} SameAsItself(db: Db, cs: seq<Pending>, p: Pick)
    requires ValidPick(db, p, cs)
    ensures SamePick(db, cs, p, p)
    decreases db
  {
    match db
    case List(elements) =>
      SameAsItself(elements[p.index], cs, p.pick);
    case Dict(items) =>
      BranchKeysAreKeys(items, cs);
      forall c | c in cs && LeadsInto(items, c)
        ensures SameUnder(db, cs, c.keys[0], p.picks, p.picks)
      {
        SameAsItself(items[c.keys[0]], Under(cs, c.keys[0]), p.picks[c.keys[0]]);
      }
  }

  // ---- Keys stand in the order of the chains

  /** The chain that brought key number `n` in, and only earlier keys before it. */
  ghost predicate BroughtIn(items: map<string, Db>, cs: seq<Pending>, keys: seq<string>, n: nat, c: nat) {
    && n < |keys| && c < |cs| && LeadsInto(items, cs[c]) && cs[c].keys[0] == keys[n]
    && forall j :: 0 <= j < c && LeadsInto(items, cs[j]) ==> cs[j].keys[0] in keys[..n]
  }

  lemma {:induction false} KeyBroughtIn(items: map<string, Db>, cs: seq<Pending>, n: nat) returns (c: nat)
    requires n < |BranchKeys(items, FirstKeys(cs))|
    ensures BroughtIn(items, cs, BranchKeys(items, FirstKeys(cs)), n, c)
    decreases |cs|
  {
    var most := cs[..|cs| - 1];
    var before, keys := BranchKeys(items, FirstKeys(most)), BranchKeys(items, FirstKeys(cs));
    KeysGrow(items, cs);
    if n < |before| {
      c := KeyBroughtIn(items, most, n);
      StillBroughtIn(items, cs, before, keys, n, c);
    } else {
      c := |cs| - 1;
      BranchKeysAreKeys(items, most);
      LastBroughtIn(items, cs, before, keys);
    }
  }

  lemma StillBroughtIn(items: map<string, Db>, cs: seq<Pending>, before: seq<string>, keys: seq<string>, n: nat, c: nat)
    requires cs != [] && BroughtIn(items, cs[..|cs| - 1], before, n, c) && before <= keys
    ensures BroughtIn(items, cs, keys, n, c)
  {
    var most := cs[..|cs| - 1];
    assert keys[..n] == before[..n];
    assert forall j :: 0 <= j <= c ==> cs[j] == most[j];
  }

  lemma LastBroughtIn(items: map<string, Db>, cs: seq<Pending>, before: seq<string>, keys: seq<string>)
    requires cs != [] && LeadsInto(items, cs[|cs| - 1]) && keys == before + [cs[|cs| - 1].keys[0]]
    requires forall d :: d in cs[..|cs| - 1] && LeadsInto(items, d) ==> d.keys[0] in before
    ensures BroughtIn(items, cs, keys, |before|, |cs| - 1)
  {
    var most := cs[..|cs| - 1];
    assert keys[..|before|] == before;
    assert forall j :: 0 <= j < |most| ==> cs[j] == most[j] && most[j] in most;
  }

  lemma KeysGrow(items: map<string, Db>, cs: seq<Pending>)
    requires cs != []
    ensures var before, keys := BranchKeys(items, FirstKeys(cs[..|cs| - 1])), BranchKeys(items, FirstKeys(cs));
            var last := cs[|cs| - 1];
            keys == before || (LeadsInto(items, last) && keys == before + [last.keys[0]])
  {
    var most, last := cs[..|cs| - 1], cs[|cs| - 1];
    if FirstKeys(cs) != FirstKeys(most) {
      assert FirstKeys(cs)[..|FirstKeys(cs)| - 1] == FirstKeys(most);
    }
  }

  // ---- The list of picks is in order

  /** At the first of the keys that tells them apart, `f` comes before `g`. */
  ghost predicate BranchBefore(db: Db, cs: seq<Pending>, keys: seq<string>, f: map<string, Pick>, g: map<string, Pick>)
    requires db.Dict?
  {
    exists n :: KeyDiffers(db, cs, keys, f, g, n)
  }

  ghost predicate KeyDiffers(db: Db, cs: seq<Pending>, keys: seq<string>, f: map<string, Pick>, g: map<string, Pick>,
                             n: nat)
    requires db.Dict?
  {
    && n < |keys| && BeforeUnder(db, cs, keys[n], f, g)
    && forall k :: k in keys[..n] ==> SameUnder(db, cs, k, f, g)
  }

  ghost predicate BranchesOrdered(db: Db, cs: seq<Pending>, keys: seq<string>, fs: seq<map<string, Pick>>)
    requires db.Dict?
  {
    forall i, j :: 0 <= i < j < |fs| ==> BranchBefore(db, cs, keys, fs[i], fs[j])
  }

  /** The choice names valid picks for the keys. */
  ghost predicate ValidUnder(db: Db, cs: seq<Pending>, keys: seq<string>, f: map<string, Pick>)
    requires db.Dict?
  {
    forall k :: k in keys ==> k in db.items && k in f && ValidPick(db.items[k], f[k], Under(cs, k))
  }

  ghost predicate AllValidUnder(db: Db, cs: seq<Pending>, keys: seq<string>, fs: seq<map<string, Pick>>)
    requires db.Dict?
  {
    forall i :: 0 <= i < |fs| ==> ValidUnder(db, cs, keys, fs[i])
  }

  ghost predicate AllValid(db: Db, cs: seq<Pending>, ps: seq<Pick>) {
    forall i :: 0 <= i < |ps| ==> ValidPick(db, ps[i], cs)
  }

  lemma {:induction false} PicksOrdered(db: Db, cs: seq<Pending>)
    ensures Ordered(db, cs, PickList(db, cs)) && AllValid(db, cs, PickList(db, cs))
    decreases db, 1, 0
  {
    match db
    case Leaf(_) =>
    case List(elements) =>
      ListOrdered(db, cs, |elements|);
    case Dict(items) =>
      var keys := BranchKeys(items, FirstKeys(cs));
      BranchKeysAreKeys(items, cs);
      BranchPicksOrdered(db, cs, keys);
      DictOrdered(db, cs, BranchPicks(db, cs, keys));
  }

  lemma {:induction false} ListOrdered(db: Db, cs: seq<Pending>, n: nat)
    requires db.List? && n <= |db.elements|
    ensures Ordered(db, cs, ListPicks(db, cs, n)) && AllValid(db, cs, ListPicks(db, cs, n))
    ensures forall i :: 0 <= i < |ListPicks(db, cs, n)| ==>
              ListPicks(db, cs, n)[i].InList? && ListPicks(db, cs, n)[i].index < n
    decreases db, 0, n
  {
    if n == 0 {
    } else {
      ListOrdered(db, cs, n - 1);
      PicksOrdered(db.elements[n - 1], cs);
      ElementOrdered(db, cs, n - 1, ListPicks(db, cs, n - 1), PickList(db.elements[n - 1], cs));
    }
  }

  lemma ElementOrdered(db: Db, cs: seq<Pending>, n: nat, ps: seq<Pick>, qs: seq<Pick>)
    requires db.List? && n < |db.elements| && Ordered(db, cs, ps)
    requires forall i :: 0 <= i < |ps| ==> ps[i].InList? && ps[i].index < n
    requires Ordered(db.elements[n], cs, qs)
    ensures Ordered(db, cs, ps + InLists(n, qs))
  {
    var all := ps + InLists(n, qs);
    forall i, j | 0 <= i < j < |all|
      ensures Before(db, cs, all[i], all[j])
    {
      if i >= |ps| {
        assert Before(db.elements[n], cs, qs[i - |ps|], qs[j - |ps|]);
      }
    }
  }

  lemma {:induction false} BranchPicksOrdered(db: Db, cs: seq<Pending>, keys: seq<string>)
    requires db.Dict? && NoDuplicateKeys(keys) && forall k :: k in keys ==> k in db.items
    ensures BranchesOrdered(db, cs, keys, BranchPicks(db, cs, keys))
    ensures AllValidUnder(db, cs, keys, BranchPicks(db, cs, keys))
    decreases db, 0, |keys|
  {
    if keys == [] {
    } else {
      var most, k := keys[..|keys| - 1], keys[|keys| - 1];
      assert keys == most + [k];
      BranchPicksOrdered(db, cs, most);
      PicksOrdered(db.items[k], Under(cs, k));
      PairsOrdered(db, cs, most, k, BranchPicks(db, cs, most), PickList(db.items[k], Under(cs, k)));
    }
  }

  /** Each pair is one of the choices so far with one of the picks. */
  lemma {:induction false} PairSplits(fs: seq<map<string, Pick>>, k: string, ps: seq<Pick>, n: nat)
    returns (i: nat, j: nat)
    requires n < |PairUp(fs, k, ps)|
    ensures i < |fs| && j < |ps| && PairUp(fs, k, ps)[n] == fs[i][k := ps[j]]
    decreases |fs|
  {
    var before := PairUp(fs[..|fs| - 1], k, ps);
    if n < |before| {
      i, j := PairSplits(fs[..|fs| - 1], k, ps, n);
    } else {
      i, j := |fs| - 1, n - |before|;
    }
  }

  lemma {:induction false} PairsOrdered(db: Db, cs: seq<Pending>, most: seq<string>, k: string,
                                        fs: seq<map<string, Pick>>, ps: seq<Pick>)
    requires db.Dict? && k !in most && k in db.items
    requires BranchesOrdered(db, cs, most, fs) && AllValidUnder(db, cs, most, fs)
    requires Ordered(db.items[k], Under(cs, k), ps) && AllValid(db.items[k], Under(cs, k), ps)
    ensures BranchesOrdered(db, cs, most + [k], PairUp(fs, k, ps))
    ensures AllValidUnder(db, cs, most + [k], PairUp(fs, k, ps))
    decreases |fs|
  {
    if fs == [] {
    } else {
      var first, f := fs[..|fs| - 1], fs[|fs| - 1];
      var before, block := PairUp(first, k, ps), Updates(f, k, ps);
      PairsOrdered(db, cs, most, k, first, ps);
      BlockOrdered(db, cs, most, k, f, ps);
      BlocksOrdered(db, cs, most, k, first, f, ps);
      JoinedOrdered(db, cs, most + [k], before, block);
    }
  }

  lemma BlocksOrdered(db: Db, cs: seq<Pending>, most: seq<string>, k: string, fs: seq<map<string, Pick>>,
                      f: map<string, Pick>, ps: seq<Pick>)
    requires db.Dict? && k !in most && forall i :: 0 <= i < |fs| ==> BranchBefore(db, cs, most, fs[i], f)
    ensures forall n, j :: 0 <= n < |PairUp(fs, k, ps)| && 0 <= j < |ps| ==>
              BranchBefore(db, cs, most + [k], PairUp(fs, k, ps)[n], Updates(f, k, ps)[j])
  {
    forall n, j | 0 <= n < |PairUp(fs, k, ps)| && 0 <= j < |ps|
      ensures BranchBefore(db, cs, most + [k], PairUp(fs, k, ps)[n], Updates(f, k, ps)[j])
    {
      var i, j' := PairSplits(fs, k, ps, n);
      EarlierKeyDecides(db, cs, most, k, fs[i], f, ps[j'], ps[j]);
    }
  }

  lemma JoinedOrdered(db: Db, cs: seq<Pending>, keys: seq<string>, fs: seq<map<string, Pick>>,
                      gs: seq<map<string, Pick>>)
    requires db.Dict? && BranchesOrdered(db, cs, keys, fs) && BranchesOrdered(db, cs, keys, gs)
    requires forall i, j :: 0 <= i < |fs| && 0 <= j < |gs| ==> BranchBefore(db, cs, keys, fs[i], gs[j])
    requires AllValidUnder(db, cs, keys, fs) && AllValidUnder(db, cs, keys, gs)
    ensures BranchesOrdered(db, cs, keys, fs + gs) && AllValidUnder(db, cs, keys, fs + gs)
  {
  }

  lemma BlockOrdered(db: Db, cs: seq<Pending>, most: seq<string>, k: string, f: map<string, Pick>, ps: seq<Pick>)
    requires db.Dict? && k !in most && k in db.items && ValidUnder(db, cs, most, f)
    requires Ordered(db.items[k], Under(cs, k), ps) && AllValid(db.items[k], Under(cs, k), ps)
    ensures BranchesOrdered(db, cs, most + [k], Updates(f, k, ps))
    ensures AllValidUnder(db, cs, most + [k], Updates(f, k, ps))
  {
    forall i, j | 0 <= i < j < |ps|
      ensures BranchBefore(db, cs, most + [k], Updates(f, k, ps)[i], Updates(f, k, ps)[j])
    {
      LastKeyDecides(db, cs, most, k, f, ps[i], ps[j]);
    }
  }

  lemma LastKeyDecides(db: Db, cs: seq<Pending>, most: seq<string>, k: string, f: map<string, Pick>, p: Pick, q: Pick)
    requires db.Dict? && k !in most && k in db.items && ValidUnder(db, cs, most, f)
    requires Before(db.items[k], Under(cs, k), p, q)
    ensures BranchBefore(db, cs, most + [k], f[k := p], f[k := q])
  {
    var keys, n := most + [k], |most|;
    assert keys[..n] == most;
    forall key | key in most
      ensures SameUnder(db, cs, key, f[k := p], f[k := q])
    {
      SameAsItself(db.items[key], Under(cs, key), f[key]);
    }
    assert KeyDiffers(db, cs, keys, f[k := p], f[k := q], n);
  }

  lemma EarlierKeyDecides(db: Db, cs: seq<Pending>, most: seq<string>, k: string, f: map<string, Pick>,
                          g: map<string, Pick>, p: Pick, q: Pick)
    requires db.Dict? && k !in most && BranchBefore(db, cs, most, f, g)
    ensures BranchBefore(db, cs, most + [k], f[k := p], g[k := q])
  {
    var keys := most + [k];
    var n: nat :| KeyDiffers(db, cs, most, f, g, n);
    assert keys[..n] == most[..n] && keys[n] == most[n];
    assert most[n] in most;
    forall key | key in keys[..n]
      ensures SameUnder(db, cs, key, f[k := p], g[k := q])
    {
      assert key in most && SameUnder(db, cs, key, f, g);
    }
    assert KeyDiffers(db, cs, keys, f[k := p], g[k := q], n);
  }

  lemma DictOrdered(db: Db, cs: seq<Pending>, fs: seq<map<string, Pick>>)
    requires db.Dict?
    requires BranchesOrdered(db, cs, BranchKeys(db.items, FirstKeys(cs)), fs)
    requires AllValidUnder(db, cs, BranchKeys(db.items, FirstKeys(cs)), fs)
    ensures Ordered(db, cs, InDicts(fs)) && AllValid(db, cs, InDicts(fs))
  {
    forall i, j | 0 <= i < j < |fs|
      ensures Before(db, cs, InDicts(fs)[i], InDicts(fs)[j])
    {
      KeysDecide(db, cs, fs[i], fs[j]);
    }
    forall i | 0 <= i < |fs|
      ensures ValidPick(db, InDicts(fs)[i], cs)
    {
      assert ValidUnder(db, cs, BranchKeys(db.items, FirstKeys(cs)), fs[i]);
    }
  }

  lemma KeysDecide(db: Db, cs: seq<Pending>, f: map<string, Pick>, g: map<string, Pick>)
    requires db.Dict? && BranchBefore(db, cs, BranchKeys(db.items, FirstKeys(cs)), f, g)
    ensures Before(db, cs, InDict(f), InDict(g))
  {
    var keys := BranchKeys(db.items, FirstKeys(cs));
    var n: nat :| KeyDiffers(db, cs, keys, f, g, n);
    var c := KeyBroughtIn(db.items, cs, n);
    assert FirstDifference(db, cs, f, g, c);
  }

  // ---- The rows

  /** The rows are the template resolved through the picks: all of them, in order, each once. */
  ghost predicate InPickOrder(act: MissingKeys, row: Row, db: Db, rows: seq<Row>, picks: seq<Pick>) {
    var cs := PendingAt(row, ChainPlaces(row));
    && |rows| == |picks|
    && (forall i :: 0 <= i < |picks| ==> ValidPick(db, picks[i], cs) && rows[i] == ResolvedRow(act, db, picks[i], row))
    && Ordered(db, cs, picks)
    && forall p :: ValidPick(db, p, cs) ==> Listed(db, cs, picks, p)
  }

  ghost predicate Listed(db: Db, cs: seq<Pending>, picks: seq<Pick>, p: Pick) {
    exists i :: 0 <= i < |picks| && SamePick(db, cs, picks[i], p)
  }

  /** The rows that `KeywordSubstitute` yields come in the order of their picks, one for every pick. */
  lemma RowsInPickOrder(act: MissingKeys, row: Row, db: Db)
    ensures exists picks ::
              InPickOrder(act, row, db, ApplyAll(row, Solutions(act, db, PendingAt(row, ChainPlaces(row)))), picks)
  {
    var cs := PendingAt(row, ChainPlaces(row));
    var sols, picks := Solutions(act, db, cs), PickList(db, cs);
    SolutionsFit(act, db, cs);
    PicksOrdered(db, cs);
    forall i | 0 <= i < |picks|
      ensures ValidPick(db, picks[i], cs) && ApplyAll(row, sols)[i] == ResolvedRow(act, db, picks[i], row)
    {
      assert PickFits(act, db, cs, sols[i], picks[i]);
      FollowedRow(act, db, picks[i], row, sols[i]);
    }
    forall p | ValidPick(db, p, cs)
      ensures Listed(db, cs, picks, p)
    {
      var i := FindPick(db, cs, p);
    }
    assert InPickOrder(act, row, db, ApplyAll(row, sols), picks);
  }

  // ---- Chains keep their order on the way down

  predicate Rising(cs: seq<Pending>) { forall i, j :: 0 <= i < j < |cs| ==> cs[i].pos < cs[j].pos }

  /** The chains under a key stand in the order in which they stand in the row. */
  lemma {:induction false} UnderRises(cs: seq<Pending>, key: string)
    requires Rising(cs)
    ensures Rising(Under(cs, key))
    ensures forall i :: 0 <= i < |Under(cs, key)| ==> cs != [] && Under(cs, key)[i].pos <= cs[|cs| - 1].pos
  {
    if cs == [] {
    } else {
      UnderRises(cs[..|cs| - 1], key);
    }
  }
}
