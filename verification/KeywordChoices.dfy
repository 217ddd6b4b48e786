/** A second meaning of keyword substitution, by choice: pick one element of every list on the way, and
    follow each chain through the picked elements. The rows are exactly what the picks give. */
module KeywordChoices {
  import opened KeywordTree
  import opened KeywordSubstitution

  /** One element for the list at hand, and one pick for each dictionary entry. */
  datatype Pick = InList(index: nat, pick: Pick) | InDict(picks: map<string, Pick>)

  /** What a chain becomes when it is followed through the picked list elements: the text of the leaf it names,
      the chain or the placeholder where a key is missing, an empty chain where its keys are used up before. */
  function Resolve(act: MissingKeys, db: Db, pick: Pick, keys: seq<string>): Segment
    decreases db
  {
    match db
    case Leaf(text) => Text(text)
    case List(elements) =>
      if pick.InList? && pick.index < |elements| then Resolve(act, elements[pick.index], pick.pick, keys)
      else Chain(keys)
    case Dict(items) =>
      if keys == [] then Chain([])
      else if keys[0] !in items then (if act.Report? then Chain(keys) else Text(act.placeholder))
      else if items[keys[0]].Leaf? then Text(items[keys[0]].text)
      else if pick.InDict? && keys[0] in pick.picks then Resolve(act, items[keys[0]], pick.picks[keys[0]], keys[1..])
      else Chain(keys)
  }

  /** The pick names an element for every list the chains lead into. */
  predicate ValidPick(db: Db, pick: Pick, cs: seq<Pending>)
    decreases db
  {
    match db
    case Leaf(_) => false
    case List(elements) => pick.InList? && pick.index < |elements| && ValidPick(elements[pick.index], pick.pick, cs)
    case Dict(items) =>
      pick.InDict? &&
      forall k :: k in BranchKeys(items, FirstKeys(cs)) ==>
        k in items && k in pick.picks && ValidPick(items[k], pick.picks[k], Under(cs, k))
  }

  /** `a` sends every pending chain, by one and the same pick, to what it resolves to. */
  ghost predicate Follows(act: MissingKeys, db: Db, pick: Pick, cs: seq<Pending>, a: Assignment) {
    && a.Keys == Positions(cs)
    && forall c :: c in cs ==> c.pos in a && a[c.pos] == Resolve(act, db, pick, c.keys)
  }

  // ---- Places

  lemma UnderDistinct(cs: seq<Pending>, key: string)
    requires DistinctPlaces(cs)
    ensures DistinctPlaces(Under(cs, key))
  {
    DistinctMembers(cs, key);
    UnderMembers(cs, key);
  }

  lemma {:induction false} DistinctMembers(cs: seq<Pending>, key: string)
    requires DistinctPlaces(cs)
    ensures forall i, j :: 0 <= i < j < |Members(cs, key)| ==> Members(cs, key)[i] != Members(cs, key)[j]
    ensures forall p :: p in Members(cs, key) ==> exists i :: 0 <= i < |cs| && cs[i].pos == p
  {
    if cs == [] {
    } else {
      var most, c := cs[..|cs| - 1], cs[|cs| - 1];
      DistinctMembers(most, key);
      var before := Members(most, key);
      forall i | 0 <= i < |before|
        ensures before[i] != c.pos
      {
        assert before[i] in before;
        var j :| 0 <= j < |most| && most[j].pos == before[i];
        assert cs[j] == most[j];
      }
    }
  }

  lemma PlacesApart(cs: seq<Pending>, keys: seq<string>, key: string)
    requires DistinctPlaces(cs) && key !in keys
    ensures PlacesUnder(cs, keys) !! Positions(Under(cs, key))
  {
    UnderPlaces(cs, key);
    assert forall c, d :: c in cs && d in cs && c.pos == d.pos ==> c == d;
  }

  /** The chains under each of the given keys follow that key's pick. */
  ghost predicate BranchFollows(act: MissingKeys, db: Db, cs: seq<Pending>, keys: seq<string>,
                                picks: map<string, Pick>, b: Assignment)
    requires db.Dict?
  {
    && b.Keys == PlacesUnder(cs, keys)
    && forall k :: k in keys ==> KeyFollows(act, db, cs, k, picks, b)
  }

  ghost predicate KeyFollows(act: MissingKeys, db: Db, cs: seq<Pending>, k: string, picks: map<string, Pick>,
                             b: Assignment)
    requires db.Dict?
  {
    && k in db.items && k in picks && ValidPick(db.items[k], picks[k], Under(cs, k))
    && forall c :: c in Under(cs, k) ==> c.pos in b && b[c.pos] == Resolve(act, db.items[k], picks[k], c.keys)
  }

  // ---- Every solution is a pick

  /** The picks in the order in which the solutions are listed. */
  ghost function PickList(db: Db, cs: seq<Pending>): seq<Pick>
    decreases db, 1, 0
  {
    match db
    case Leaf(_) => []
    case List(elements) => ListPicks(db, cs, |elements|)
    case Dict(items) => InDicts(BranchPicks(db, cs, BranchKeys(items, FirstKeys(cs))))
  }

  ghost function ListPicks(db: Db, cs: seq<Pending>, n: nat): seq<Pick>
    requires db.List? && n <= |db.elements|
    decreases db, 0, n
  {
    if n == 0 then [] else ListPicks(db, cs, n - 1) + InLists(n - 1, PickList(db.elements[n - 1], cs))
  }

  ghost function BranchPicks(db: Db, cs: seq<Pending>, keys: seq<string>): seq<map<string, Pick>>
    requires db.Dict?
    decreases db, 0, |keys|
  {
    if keys == [] then [map[]]
    else
      var before, k := BranchPicks(db, cs, keys[..|keys| - 1]), keys[|keys| - 1];
      if k in db.items then PairUp(before, k, PickList(db.items[k], Under(cs, k))) else before
  }

  ghost function InLists(n: nat, ps: seq<Pick>): (qs: seq<Pick>)
    ensures |qs| == |ps|
  {
    seq(|ps|, i requires 0 <= i < |ps| => InList(n, ps[i]))
  }

  ghost function InDicts(fs: seq<map<string, Pick>>): (qs: seq<Pick>)
    ensures |qs| == |fs|
  {
    seq(|fs|, i requires 0 <= i < |fs| => InDict(fs[i]))
  }

  /** Every choice so far with every pick for the further key, the former outermost. */
  ghost function PairUp(fs: seq<map<string, Pick>>, k: string, ps: seq<Pick>): seq<map<string, Pick>> {
    if fs == [] then [] else PairUp(fs[..|fs| - 1], k, ps) + Updates(fs[|fs| - 1], k, ps)
  }

  ghost function Updates(f: map<string, Pick>, k: string, ps: seq<Pick>): (gs: seq<map<string, Pick>>)
    ensures |gs| == |ps|
  {
    seq(|ps|, i requires 0 <= i < |ps| => f[k := ps[i]])
  }

  ghost predicate PickFits(act: MissingKeys, db: Db, cs: seq<Pending>, a: Assignment, pick: Pick) {
    ValidPick(db, pick, cs) && Follows(act, db, pick, cs, a)
  }

  /** The assignments and the picks belong together one by one. */
  ghost predicate PicksFit(act: MissingKeys, db: Db, cs: seq<Pending>, sols: seq<Assignment>, ps: seq<Pick>) {
    |sols| == |ps| && forall i :: 0 <= i < |sols| ==> PickFits(act, db, cs, sols[i], ps[i])
  }

  ghost predicate BranchesFit(act: MissingKeys, db: Db, cs: seq<Pending>, keys: seq<string>, bs: seq<Assignment>,
                              fs: seq<map<string, Pick>>)
    requires db.Dict?
  {
    |bs| == |fs| && forall i :: 0 <= i < |bs| ==> BranchFollows(act, db, cs, keys, fs[i], bs[i])
  }

  lemma {:induction false} SolutionsFit(act: MissingKeys, db: Db, cs: seq<Pending>)
    requires DistinctPlaces(cs)
    ensures PicksFit(act, db, cs, Solutions(act, db, cs), PickList(db, cs))
    decreases db, 1, 0
  {
    match db
    case Leaf(_) =>
    case List(elements) =>
      ListFits(act, db, cs, |elements|);
    case Dict(items) =>
      BranchKeysAreKeys(items, cs);
      BranchesOfDictFit(act, db, cs, BranchKeys(items, FirstKeys(cs)));
      DictFits(act, db, cs);
  }

  lemma {:induction false} ListFits(act: MissingKeys, db: Db, cs: seq<Pending>, n: nat)
    requires db.List? && n <= |db.elements| && DistinctPlaces(cs)
    ensures PicksFit(act, db, cs, ListSolutions(act, db, cs, n), ListPicks(db, cs, n))
    decreases db, 0, n
  {
    if n == 0 {
    } else {
      ListFits(act, db, cs, n - 1);
      SolutionsFit(act, db.elements[n - 1], cs);
      ElementFits(act, db, cs, n - 1, Solutions(act, db.elements[n - 1], cs), PickList(db.elements[n - 1], cs));
    }
  }

  lemma ElementFits(act: MissingKeys, db: Db, cs: seq<Pending>, n: nat, sols: seq<Assignment>, ps: seq<Pick>)
    requires db.List? && n < |db.elements| && PicksFit(act, db.elements[n], cs, sols, ps)
    ensures PicksFit(act, db, cs, sols, InLists(n, ps))
  {
    forall i | 0 <= i < |sols|
      ensures PickFits(act, db, cs, sols[i], InLists(n, ps)[i])
    {
      assert PickFits(act, db.elements[n], cs, sols[i], ps[i]);
    }
  }

  lemma {:induction false} BranchesOfDictFit(act: MissingKeys, db: Db, cs: seq<Pending>, keys: seq<string>)
    requires db.Dict? && DistinctPlaces(cs) && NoDuplicateKeys(keys) && (forall k :: k in keys ==> k in db.items)
    ensures BranchesFit(act, db, cs, keys, BranchSolutions(act, db, cs, keys), BranchPicks(db, cs, keys))
    decreases db, 0, |keys|
  {
    if keys == [] {
      assert PlacesUnder(cs, keys) == {};
    } else {
      var most, k := keys[..|keys| - 1], keys[|keys| - 1];
      assert keys == most + [k];
      BranchesOfDictFit(act, db, cs, most);
      UnderDistinct(cs, k);
      SolutionsFit(act, db.items[k], Under(cs, k));
      PairsFit(act, db, cs, most, k, BranchSolutions(act, db, cs, most), BranchPicks(db, cs, most),
               Solutions(act, db.items[k], Under(cs, k)), PickList(db.items[k], Under(cs, k)));
    }
  }

  lemma {:induction false} PairsFit(act: MissingKeys, db: Db, cs: seq<Pending>, most: seq<string>, k: string,
                                    xs: seq<Assignment>, fs: seq<map<string, Pick>>, ys: seq<Assignment>, ps: seq<Pick>)
    requires db.Dict? && DistinctPlaces(cs) && k !in most && k in db.items
    requires BranchesFit(act, db, cs, most, xs, fs) && PicksFit(act, db.items[k], Under(cs, k), ys, ps)
    ensures BranchesFit(act, db, cs, most + [k], Combine(xs, ys), PairUp(fs, k, ps))
    decreases |xs|
  {
    if xs == [] {
    } else {
      var x, f := xs[|xs| - 1], fs[|fs| - 1];
      PairsFit(act, db, cs, most, k, xs[..|xs| - 1], fs[..|fs| - 1], ys, ps);
      forall j | 0 <= j < |ys|
        ensures BranchFollows(act, db, cs, most + [k], Updates(f, k, ps)[j], Extend(x, ys)[j])
      {
        assert PickFits(act, db.items[k], Under(cs, k), ys[j], ps[j]);
        JoinBranch(act, db, cs, most, k, f, ps[j], x, ys[j]);
      }
    }
  }

  lemma DictFits(act: MissingKeys, db: Db, cs: seq<Pending>)
    requires db.Dict? && DistinctPlaces(cs)
    requires var keys := BranchKeys(db.items, FirstKeys(cs));
             BranchesFit(act, db, cs, keys, BranchSolutions(act, db, cs, keys), BranchPicks(db, cs, keys))
    ensures PicksFit(act, db, cs, Solutions(act, db, cs), PickList(db, cs))
  {
    var keys := BranchKeys(db.items, FirstKeys(cs));
    var bs, fs := BranchSolutions(act, db, cs, keys), BranchPicks(db, cs, keys);
    forall i | 0 <= i < |bs|
      ensures PickFits(act, db, cs, Solutions(act, db, cs)[i], PickList(db, cs)[i])
    {
      BranchFits(act, db, cs, fs[i], bs[i]);
    }
  }

  lemma BranchFits(act: MissingKeys, db: Db, cs: seq<Pending>, picks: map<string, Pick>, b: Assignment)
    requires db.Dict? && DistinctPlaces(cs)
    requires BranchFollows(act, db, cs, BranchKeys(db.items, FirstKeys(cs)), picks, b)
    ensures PickFits(act, db, cs, Settled(act, db.items, cs) + b, InDict(picks))
  {
    SettledKeys(act, db.items, cs);
    PlacesSplit(db.items, cs);
    forall c | c in cs
      ensures var a := Settled(act, db.items, cs) + b;
              c.pos in a && a[c.pos] == Resolve(act, db, InDict(picks), c.keys)
    {
      DictFollows(act, db, cs, c, picks, b);
    }
    assert forall k :: k in BranchKeys(db.items, FirstKeys(cs)) ==> KeyFollows(act, db, cs, k, picks, b);
  }

  lemma PickOf(act: MissingKeys, db: Db, cs: seq<Pending>, a: Assignment) returns (pick: Pick)
    requires DistinctPlaces(cs) && a in Solutions(act, db, cs)
    ensures PickFits(act, db, cs, a, pick)
  {
    SolutionsFit(act, db, cs);
    var i :| 0 <= i < |Solutions(act, db, cs)| && Solutions(act, db, cs)[i] == a;
    pick := PickList(db, cs)[i];
  }

  lemma {:induction false} BranchKeysDistinct(items: map<string, Db>, keys: seq<string>)
    requires NoDuplicateKeys(keys)
    ensures NoDuplicateKeys(BranchKeys(items, keys))
  {
    if keys == [] {
    } else {
      BranchKeysDistinct(items, keys[..|keys| - 1]);
      BranchKeysExact(items, keys[..|keys| - 1]);
    }
  }

  /** An assignment of the earlier branches and one of a further branch make one of them all. */
  lemma JoinBranch(act: MissingKeys, db: Db, cs: seq<Pending>, most: seq<string>, k: string,
                   before: map<string, Pick>, pick: Pick, x: Assignment, y: Assignment)
    requires db.Dict? && DistinctPlaces(cs) && k !in most && k in db.items
    requires BranchFollows(act, db, cs, most, before, x)
    requires ValidPick(db.items[k], pick, Under(cs, k)) && Follows(act, db.items[k], pick, Under(cs, k), y)
    ensures BranchFollows(act, db, cs, most + [k], before[k := pick], x + y)
  {
    PlacesApart(cs, most, k);
    UnderPlaces(cs, k);
    PlacesOfLast(cs, most, k);
    forall j | j in most
      ensures KeyFollows(act, db, cs, j, before[k := pick], x + y)
    {
      EarlierKeyFollows(act, db, cs, most, j, k, before, pick, x, y);
    }
    assert KeyFollows(act, db, cs, k, before[k := pick], x + y);
  }

  lemma PlacesOfLast(cs: seq<Pending>, most: seq<string>, k: string)
    ensures PlacesUnder(cs, most + [k]) == PlacesUnder(cs, most) + PlacesUnder(cs, [k])
  {
  }

  lemma EarlierKeyFollows(act: MissingKeys, db: Db, cs: seq<Pending>, most: seq<string>, j: string, k: string,
                          before: map<string, Pick>, pick: Pick, x: Assignment, y: Assignment)
    requires db.Dict? && j in most && j != k && KeyFollows(act, db, cs, j, before, x)
    requires x.Keys == PlacesUnder(cs, most) && x.Keys !! y.Keys
    ensures KeyFollows(act, db, cs, j, before[k := pick], x + y)
  {
  }

  /** A chain of a dictionary settles there or follows the pick of its first key. */
  lemma DictFollows(act: MissingKeys, db: Db, cs: seq<Pending>, c: Pending, picks: map<string, Pick>, b: Assignment)
    requires db.Dict? && DistinctPlaces(cs) && c in cs
    requires BranchFollows(act, db, cs, BranchKeys(db.items, FirstKeys(cs)), picks, b)
    ensures var a := Settled(act, db.items, cs) + b;
            c.pos in a && a[c.pos] == Resolve(act, db, InDict(picks), c.keys)
  {
    var keys := BranchKeys(db.items, FirstKeys(cs));
    FirstKeysComplete(cs);
    BranchKeysExact(db.items, FirstKeys(cs));
    if Settles(db.items, c.keys) {
      var i :| 0 <= i < |cs| && cs[i] == c;
      SettledValues(act, db.items, cs, i);
      SettlingIsNotUnder(cs, keys, db.items, c);
    } else {
      var k := c.keys[0];
      assert KeyFollows(act, db, cs, k, picks, b);
      UnderMembers(cs, k);
      assert StartsWith(c, k);
      assert Pending(c.pos, c.keys[1..]) in Under(cs, k);
    }
  }

  lemma SettlingIsNotUnder(cs: seq<Pending>, keys: seq<string>, items: map<string, Db>, c: Pending)
    requires DistinctPlaces(cs) && c in cs && Settles(items, c.keys) && forall k :: k in keys ==> IsBranch(items, k)
    ensures c.pos !in PlacesUnder(cs, keys)
  {
    assert forall d :: d in cs && d.pos == c.pos ==> d == c;
  }

  // ---- Every pick is a solution

  /** The chain goes on into a dictionary or a list. */
  predicate LeadsInto(items: map<string, Db>, c: Pending) { c.keys != [] && IsBranch(items, c.keys[0]) }

  /** The picks agree on every list the chains lead into. */
  ghost predicate SamePick(db: Db, cs: seq<Pending>, p: Pick, q: Pick)
    decreases db, 1
  {
    match db
    case Leaf(_) => false
    case List(elements) =>
      p.InList? && q.InList? && p.index == q.index < |elements| && SamePick(elements[p.index], cs, p.pick, q.pick)
    case Dict(items) =>
      && p.InDict? && q.InDict?
      && forall c :: c in cs && LeadsInto(items, c) ==> SameUnder(db, cs, c.keys[0], p.picks, q.picks)
  }

  ghost predicate SameUnder(db: Db, cs: seq<Pending>, k: string, f: map<string, Pick>, g: map<string, Pick>)
    requires db.Dict?
    decreases db, 0
  {
    k in db.items && k in f && k in g && SamePick(db.items[k], Under(cs, k), f[k], g[k])
  }

  lemma {:induction false} SameResolves(act: MissingKeys, db: Db, cs: seq<Pending>, p: Pick, q: Pick, c: Pending)
    requires SamePick(db, cs, p, q) && c in cs
    ensures Resolve(act, db, p, c.keys) == Resolve(act, db, q, c.keys)
    decreases db
  {
    match db
    case List(elements) =>
      SameResolves(act, elements[p.index], cs, p.pick, q.pick, c);
    case Dict(items) =>
      if LeadsInto(items, c) {
        var k := c.keys[0];
        assert SameUnder(db, cs, k, p.picks, q.picks);
        UnderHas(cs, k, c);
        SameResolves(act, items[k], Under(cs, k), p.picks[k], q.picks[k], Pending(c.pos, c.keys[1..]));
      }
  }

  lemma BranchKeysAreKeys(items: map<string, Db>, cs: seq<Pending>)
    ensures NoDuplicateKeys(BranchKeys(items, FirstKeys(cs)))
    ensures forall k :: k in BranchKeys(items, FirstKeys(cs)) ==> IsBranch(items, k)
    ensures forall c :: c in cs && LeadsInto(items, c) ==> c.keys[0] in BranchKeys(items, FirstKeys(cs))
  {
    FirstKeysComplete(cs);
    BranchKeysExact(items, FirstKeys(cs));
    BranchKeysDistinct(items, FirstKeys(cs));
  }

  /** Every pick agrees with one of the list. */
  lemma {:induction false} FindPick(db: Db, cs: seq<Pending>, pick: Pick) returns (i: nat)
    requires ValidPick(db, pick, cs)
    ensures i < |PickList(db, cs)| && SamePick(db, cs, PickList(db, cs)[i], pick)
    decreases db, 1, 0
  {
    match db
    case List(elements) =>
      i := FindListPick(db, cs, |elements|, pick);
    case Dict(items) =>
      BranchKeysAreKeys(items, cs);
      var keys := BranchKeys(items, FirstKeys(cs));
      i := FindPicks(db, cs, keys, pick.picks);
      assert forall c :: c in cs && LeadsInto(items, c) ==>
        SameUnder(db, cs, c.keys[0], BranchPicks(db, cs, keys)[i], pick.picks);
  }

  lemma {:induction false} FindListPick(db: Db, cs: seq<Pending>, n: nat, pick: Pick) returns (i: nat)
    requires db.List? && ValidPick(db, pick, cs) && pick.index < n <= |db.elements|
    ensures i < |ListPicks(db, cs, n)| && SamePick(db, cs, ListPicks(db, cs, n)[i], pick)
    decreases db, 0, n
  {
    if pick.index == n - 1 {
      var j := FindPick(db.elements[n - 1], cs, pick.pick);
      i := |ListPicks(db, cs, n - 1)| + j;
      assert ListPicks(db, cs, n)[i] == InLists(n - 1, PickList(db.elements[n - 1], cs))[j];
    } else {
      i := FindListPick(db, cs, n - 1, pick);
    }
  }

  lemma {:induction false} FindPicks(db: Db, cs: seq<Pending>, keys: seq<string>, f: map<string, Pick>) returns (i: nat)
    requires db.Dict? && NoDuplicateKeys(keys)
    requires forall k :: k in keys ==> k in db.items && k in f && ValidPick(db.items[k], f[k], Under(cs, k))
    ensures i < |BranchPicks(db, cs, keys)|
    ensures forall k :: k in keys ==> SameUnder(db, cs, k, BranchPicks(db, cs, keys)[i], f)
    decreases db, 0, |keys|
  {
    if keys == [] {
      i := 0;
    } else {
      var most, k := keys[..|keys| - 1], keys[|keys| - 1];
      assert keys == most + [k];
      var i0 := FindPicks(db, cs, most, f);
      var j := FindPick(db.items[k], Under(cs, k), f[k]);
      i := PairHas(BranchPicks(db, cs, most), k, PickList(db.items[k], Under(cs, k)), i0, j);
      forall key | key in keys
        ensures SameUnder(db, cs, key, BranchPicks(db, cs, keys)[i], f)
      {
        if key != k {
          assert SameUnder(db, cs, key, BranchPicks(db, cs, most)[i0], f);
        }
      }
    }
  }

  lemma {:induction false} PairHas(fs: seq<map<string, Pick>>, k: string, ps: seq<Pick>, i: nat, j: nat) returns (n: nat)
    requires i < |fs| && j < |ps|
    ensures n < |PairUp(fs, k, ps)| && PairUp(fs, k, ps)[n] == fs[i][k := ps[j]]
    decreases |fs|
  {
    if i == |fs| - 1 {
      n := |PairUp(fs[..|fs| - 1], k, ps)| + j;
      assert PairUp(fs, k, ps)[n] == Updates(fs[i], k, ps)[j];
    } else {
      n := PairHas(fs[..|fs| - 1], k, ps, i, j);
    }
  }

  lemma PickIsSolution(act: MissingKeys, db: Db, cs: seq<Pending>, pick: Pick, a: Assignment)
    requires DistinctPlaces(cs) && PickFits(act, db, cs, a, pick)
    ensures a in Solutions(act, db, cs)
  {
    SolutionsFit(act, db, cs);
    var i := FindPick(db, cs, pick);
    var p, b := PickList(db, cs)[i], Solutions(act, db, cs)[i];
    assert PickFits(act, db, cs, b, p);
    forall c | c in cs
      ensures c.pos in a && c.pos in b && a[c.pos] == b[c.pos]
    {
      SameResolves(act, db, cs, p, pick, c);
    }
    assert a == b;
  }

  /** The solutions are exactly what the picks give: every row takes all its chains through one choice of
      list elements, so chains that share a prefix of keys meet the same elements, and every choice is a row. */
  lemma SolutionsAreThePicks(act: MissingKeys, db: Db, cs: seq<Pending>, a: Assignment)
    requires DistinctPlaces(cs)
    ensures a in Solutions(act, db, cs) <==>
            exists pick :: ValidPick(db, pick, cs) && Follows(act, db, pick, cs, a)
  {
    if a in Solutions(act, db, cs) {
      var pick := PickOf(act, db, cs, a);
      assert ValidPick(db, pick, cs) && Follows(act, db, pick, cs, a);
    }
    forall pick | ValidPick(db, pick, cs) && Follows(act, db, pick, cs, a)
      ensures a in Solutions(act, db, cs)
    {
      PickIsSolution(act, db, cs, pick, a);
    }
  }

  /** The template row with every chain followed through one pick. */
  function ResolvedRow(act: MissingKeys, db: Db, pick: Pick, row: Row): (r: Row)
    ensures |r| == |row|
  {
    seq(|row|, i requires 0 <= i < |row| => if row[i].Chain? then Resolve(act, db, pick, row[i].keys) else row[i])
  }

  /** The rows that `KeywordSubstitute` yields are the resolved rows, one choice of list elements for each. */
  lemma RowsAreThePicks(act: MissingKeys, row: Row, db: Db, out: Row)
    ensures var cs := PendingAt(row, ChainPlaces(row));
            out in ApplyAll(row, Solutions(act, db, cs)) <==>
            exists pick :: ValidPick(db, pick, cs) && out == ResolvedRow(act, db, pick, row)
  {
    var cs := PendingAt(row, ChainPlaces(row));
    if out in ApplyAll(row, Solutions(act, db, cs)) {
      var pick := PickOfRow(act, row, db, out);
    }
    forall pick | ValidPick(db, pick, cs) && out == ResolvedRow(act, db, pick, row)
      ensures out in ApplyAll(row, Solutions(act, db, cs))
    {
      PickIsRow(act, row, db, pick);
    }
  }

  lemma PickOfRow(act: MissingKeys, row: Row, db: Db, out: Row) returns (pick: Pick)
    requires out in ApplyAll(row, Solutions(act, db, PendingAt(row, ChainPlaces(row))))
    ensures ValidPick(db, pick, PendingAt(row, ChainPlaces(row))) && out == ResolvedRow(act, db, pick, row)
  {
    var cs := PendingAt(row, ChainPlaces(row));
    var sols := Solutions(act, db, cs);
    var i :| 0 <= i < |sols| && ApplyAll(row, sols)[i] == out;
    pick := PickOf(act, db, cs, sols[i]);
    FollowedRow(act, db, pick, row, sols[i]);
  }

  lemma PickIsRow(act: MissingKeys, row: Row, db: Db, pick: Pick)
    requires ValidPick(db, pick, PendingAt(row, ChainPlaces(row)))
    ensures ResolvedRow(act, db, pick, row) in ApplyAll(row, Solutions(act, db, PendingAt(row, ChainPlaces(row))))
  {
    var cs := PendingAt(row, ChainPlaces(row));
    var a: Assignment := map p | p in ChainPlaces(row) :: Resolve(act, db, pick, row[p].keys);
    PickedRow(act, db, pick, row, a);
    PickIsSolution(act, db, cs, pick, a);
    InApplied(row, Solutions(act, db, cs), a);
  }

  lemma InApplied(row: Row, sols: seq<Assignment>, a: Assignment)
    requires a in sols
    ensures ApplyTo(row, a) in ApplyAll(row, sols)
  {
    var i :| 0 <= i < |sols| && sols[i] == a;
    assert ApplyAll(row, sols)[i] == ApplyTo(row, a);
  }

  lemma FollowedRow(act: MissingKeys, db: Db, pick: Pick, row: Row, a: Assignment)
    requires Follows(act, db, pick, PendingAt(row, ChainPlaces(row)), a)
    ensures ApplyTo(row, a) == ResolvedRow(act, db, pick, row)
  {
    forall p | 0 <= p < |row|
      ensures ApplyTo(row, a)[p] == ResolvedRow(act, db, pick, row)[p]
    {
      FollowedCell(act, db, pick, row, a, p);
    }
  }

  lemma FollowedCell(act: MissingKeys, db: Db, pick: Pick, row: Row, a: Assignment, p: nat)
    requires Follows(act, db, pick, PendingAt(row, ChainPlaces(row)), a) && p < |row|
    ensures p in a <==> row[p].Chain?
    ensures p in a ==> a[p] == Resolve(act, db, pick, row[p].keys)
  {
    var cs, ps := PendingAt(row, ChainPlaces(row)), ChainPlaces(row);
    if row[p].Chain? {
      var i :| 0 <= i < |ps| && ps[i] == p;
      assert cs[i] in cs;
    } else {
      assert forall c :: c in cs ==> c.pos in ps;
    }
  }

  lemma PickedRow(act: MissingKeys, db: Db, pick: Pick, row: Row, a: Assignment)
    requires a.Keys == set p | p in ChainPlaces(row)
    requires forall p :: p in ChainPlaces(row) ==> a[p] == Resolve(act, db, pick, row[p].keys)
    ensures Follows(act, db, pick, PendingAt(row, ChainPlaces(row)), a)
    ensures ApplyTo(row, a) == ResolvedRow(act, db, pick, row)
  {
    var ps := ChainPlaces(row);
    var cs := PendingAt(row, ps);
    forall c | c in cs
      ensures c.pos in a && a[c.pos] == Resolve(act, db, pick, c.keys)
    {
      PendingKeys(row, ps, c);
    }
    PendingPlaces(row, ps);
    FollowedRow(act, db, pick, row, a);
  }

  lemma PendingPlaces(row: Row, ps: seq<nat>)
    requires ValidChains(row, ps)
    ensures Positions(PendingAt(row, ps)) == set p | p in ps
  {
    var cs := PendingAt(row, ps);
    forall p | p in ps
      ensures p in Positions(cs)
    {
      var i :| 0 <= i < |ps| && ps[i] == p;
      assert cs[i] in cs && cs[i].pos == p;
    }
  }

  // ---- Well-shaped databases

  /** With dictionaries or lists as list elements throughout, expansion never meets a bare leaf. */
  lemma {:induction false} BranchElementsSuffice(act: MissingKeys, db: Db, cs: seq<Pending>)
    requires BranchElements(db) && !db.Leaf?
    ensures !LeafReached(act, db, cs)
    decreases db, 1, 0
  {
    match db
    case List(elements) => ListElementsSuffice(act, db, cs, |elements|);
    case Dict(items) =>
      BranchKeysExact(items, FirstKeys(cs));
      BranchItemsSuffice(act, db, cs, BranchKeys(items, FirstKeys(cs)));
  }

  lemma {:induction false} ListElementsSuffice(act: MissingKeys, db: Db, cs: seq<Pending>, n: nat)
    requires db.List? && BranchElements(db) && n <= |db.elements|
    ensures !ListReached(act, db, cs, n)
    decreases db, 0, n
  {
    if n == 0 {
    } else {
      assert db.elements[n - 1] in db.elements;
      ListElementsSuffice(act, db, cs, n - 1);
      BranchElementsSuffice(act, db.elements[n - 1], cs);
    }
  }

  lemma {:induction false} BranchItemsSuffice(act: MissingKeys, db: Db, cs: seq<Pending>, keys: seq<string>)
    requires db.Dict? && BranchElements(db) && forall k :: k in keys ==> IsBranch(db.items, k)
    ensures !BranchReached(act, db, cs, keys)
    decreases db, 0, |keys|
  {
    if keys == [] {
    } else {
      var k := keys[|keys| - 1];
      assert k in keys;
      BranchItemsSuffice(act, db, cs, keys[..|keys| - 1]);
      BranchElementsSuffice(act, db.items[k], Under(cs, k));
    }
  }

  /** One plain value among the elements of a list is enough to fail, wherever it stands and whatever the
      template: no list of rows comes out. */
  lemma LeafListFails(act: MissingKeys, db: Db, cs: seq<Pending>, i: nat)
    requires db.List? && i < |db.elements| && db.elements[i].Leaf?
    ensures LeafReached(act, db, cs)
  {
    LeafElementReached(act, db, cs, i, |db.elements|);
  }

  lemma {:induction false} LeafElementReached(act: MissingKeys, db: Db, cs: seq<Pending>, i: nat, n: nat)
    requires db.List? && i < n <= |db.elements| && db.elements[i].Leaf?
    ensures ListReached(act, db, cs, n)
    decreases n
  {
    if i == n - 1 {
      assert LeafReached(act, db.elements[i], cs);
    } else {
      LeafElementReached(act, db, cs, i, n - 1);
    }
  }
}
