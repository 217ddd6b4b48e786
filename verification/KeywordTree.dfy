/** What keyword substitution means: templates with key chains, databases of nested dictionaries and
    lists, and the rows a template stands for. */
module KeywordTree {

  /** A piece of a template line: literal text, or a chain of keys still to be looked up. */
  datatype Segment = Text(text: string) | Chain(keys: seq<string>)

  type Row = seq<Segment>

  datatype Db = Leaf(text: string) | Dict(items: map<string, Db>) | List(elements: seq<Db>)

  /** What happens to a chain whose key is missing. */
  datatype MissingKeys = Report | Replace(placeholder: string)

  /** A chain in progress: where it stands in the row, and the keys left. */
  datatype Pending = Pending(pos: nat, keys: seq<string>)

  /** What becomes of each pending chain. */
  type Assignment = map<nat, Segment>

  function Positions(cs: seq<Pending>): set<nat> {
    set c | c in cs :: c.pos
  }

  /** List elements are dictionaries or lists, at every depth. */
  predicate BranchElements(db: Db) {
    match db
    case Leaf(_) => true
    case Dict(items) => forall k :: k in items ==> BranchElements(items[k])
    case List(elements) => forall e :: e in elements ==> !e.Leaf? && BranchElements(e)
  }

  // ---- Grouping by first key

  /** The distinct first keys, in order of first appearance. */
  function FirstKeys(cs: seq<Pending>): seq<string> {
    if cs == [] then []
    else
      var before, c := FirstKeys(cs[..|cs| - 1]), cs[|cs| - 1];
      if c.keys == [] || c.keys[0] in before then before else before + [c.keys[0]]
  }

  /** The chains that start with `key`, one key shorter. */
  function Under(cs: seq<Pending>, key: string): seq<Pending> {
    if cs == [] then []
    else
      var before, c := Under(cs[..|cs| - 1], key), cs[|cs| - 1];
      if c.keys != [] && c.keys[0] == key then before + [Pending(c.pos, c.keys[1..])] else before
  }

  predicate IsBranch(items: map<string, Db>, key: string) {
    key in items && !items[key].Leaf?
  }

  /** The first keys that lead into a dictionary or a list. */
  function BranchKeys(items: map<string, Db>, keys: seq<string>): seq<string> {
    if keys == [] then []
    else
      var before, k := BranchKeys(items, keys[..|keys| - 1]), keys[|keys| - 1];
      if IsBranch(items, k) then before + [k] else before
  }

  /** A chain that ends at this dictionary: used up, at a leaf, or at a missing key. */
  predicate Settles(items: map<string, Db>, keys: seq<string>) {
    keys == [] || !IsBranch(items, keys[0])
  }

  function SettledSegment(act: MissingKeys, items: map<string, Db>, keys: seq<string>): Segment {
    if keys == [] then Chain([])
    else if keys[0] in items then
      (if items[keys[0]].Leaf? then Text(items[keys[0]].text) else Chain(keys[1..]))
    else match act
      case Report => Chain(keys)
      case Replace(placeholder) => Text(placeholder)
  }

  function Settled(act: MissingKeys, items: map<string, Db>, cs: seq<Pending>): Assignment {
    if cs == [] then map[]
    else
      var before, c := Settled(act, items, cs[..|cs| - 1]), cs[|cs| - 1];
      if Settles(items, c.keys) then before[c.pos := SettledSegment(act, items, c.keys)] else before
  }

  // ---- The ordered product

  /** Every choice from `xs` with every choice from `ys`, the former outermost. */
  function Combine(xs: seq<Assignment>, ys: seq<Assignment>): seq<Assignment> {
    if xs == [] then [] else Combine(xs[..|xs| - 1], ys) + Extend(xs[|xs| - 1], ys)
  }

  function Extend(x: Assignment, ys: seq<Assignment>): (zs: seq<Assignment>)
    ensures |zs| == |ys|
  {
    seq(|ys|, i requires 0 <= i < |ys| => x + ys[i])
  }

  /** What the pending chains can become, in row order: all elements of a list one after the other, all
      branches of a dictionary independently of each other. */
  function Solutions(act: MissingKeys, db: Db, cs: seq<Pending>): seq<Assignment>
    decreases db, 1, 0
  {
    match db
    case Leaf(_) => []
    case List(elements) => ListSolutions(act, db, cs, |elements|)
    case Dict(items) =>
      Extend(Settled(act, items, cs), BranchSolutions(act, db, cs, BranchKeys(items, FirstKeys(cs))))
  }

  function ListSolutions(act: MissingKeys, db: Db, cs: seq<Pending>, n: nat): seq<Assignment>
    requires db.List? && n <= |db.elements|
    decreases db, 0, n
  {
    if n == 0 then []
    else ListSolutions(act, db, cs, n - 1) + Solutions(act, db.elements[n - 1], cs)
  }

  function BranchSolutions(act: MissingKeys, db: Db, cs: seq<Pending>, keys: seq<string>): seq<Assignment>
    requires db.Dict?
    decreases db, 0, |keys|
  {
    if keys == [] then [map[]]
    else
      var before, k := BranchSolutions(act, db, cs, keys[..|keys| - 1]), keys[|keys| - 1];
      if k in db.items then Combine(before, Solutions(act, db.items[k], Under(cs, k))) else before
  }

  /** Expansion meets a leaf that is not a dictionary entry: the database itself, or a list element. Branches
      after one without any solution are never entered. */
  predicate LeafReached(act: MissingKeys, db: Db, cs: seq<Pending>)
    decreases db, 1, 0
  {
    match db
    case Leaf(_) => true
    case List(elements) => ListReached(act, db, cs, |elements|)
    case Dict(items) => BranchReached(act, db, cs, BranchKeys(items, FirstKeys(cs)))
  }

  predicate ListReached(act: MissingKeys, db: Db, cs: seq<Pending>, n: nat)
    requires db.List? && n <= |db.elements|
    decreases db, 0, n
  {
    n > 0 && (ListReached(act, db, cs, n - 1) || LeafReached(act, db.elements[n - 1], cs))
  }

  predicate BranchReached(act: MissingKeys, db: Db, cs: seq<Pending>, keys: seq<string>)
    requires db.Dict?
    decreases db, 0, |keys|
  {
    keys != [] &&
    var most, k := keys[..|keys| - 1], keys[|keys| - 1];
    (BranchReached(act, db, cs, most) ||
     (k in db.items && BranchSolutions(act, db, cs, most) != [] && LeafReached(act, db.items[k], Under(cs, k))))
  }

  // ---- Rows

  function ApplyTo(row: Row, a: Assignment): (r: Row)
    ensures |r| == |row|
  {
    seq(|row|, i requires 0 <= i < |row| => if i in a then a[i] else row[i])
  }

  function ApplyAll(row: Row, sols: seq<Assignment>): (rows: seq<Row>)
    ensures |rows| == |sols|
  {
    seq(|sols|, i requires 0 <= i < |sols| => ApplyTo(row, sols[i]))
  }

  /** The pending chains of a row at the given places. */
  function PendingAt(row: Row, chains: seq<nat>): seq<Pending>
    requires forall i :: 0 <= i < |chains| ==> chains[i] < |row| && row[chains[i]].Chain?
  {
    seq(|chains|, i requires 0 <= i < |chains| => Pending(chains[i], row[chains[i]].keys))
  }

  lemma ApplyAllConcat(row: Row, xs: seq<Assignment>, ys: seq<Assignment>)
    ensures ApplyAll(row, xs + ys) == ApplyAll(row, xs) + ApplyAll(row, ys)
  {
  }

  lemma ApplyTwice(row: Row, x: Assignment, y: Assignment)
    ensures ApplyTo(ApplyTo(row, x), y) == ApplyTo(row, x + y)
  {
  }

  lemma ApplyExtend(row: Row, x: Assignment, ys: seq<Assignment>)
    ensures ApplyAll(ApplyTo(row, x), ys) == ApplyAll(row, Extend(x, ys))
  {
    forall i | 0 <= i < |ys|
      ensures ApplyAll(ApplyTo(row, x), ys)[i] == ApplyAll(row, Extend(x, ys))[i]
    {
      ApplyTwice(row, x, ys[i]);
    }
  }

  // ---- Every solution assigns exactly the pending chains

  ghost predicate Covers(sols: seq<Assignment>, ps: set<nat>) {
    forall i :: 0 <= i < |sols| ==> sols[i].Keys == ps
  }

  lemma {:induction false} CombineCovers(xs: seq<Assignment>, ys: seq<Assignment>, p: set<nat>, q: set<nat>)
    requires Covers(xs, p) && Covers(ys, q)
    ensures Covers(Combine(xs, ys), p + q)
  {
    if xs == [] {
    } else {
      CombineCovers(xs[..|xs| - 1], ys, p, q);
    }
  }

  lemma {:induction false} CombineCount(xs: seq<Assignment>, ys: seq<Assignment>)
    ensures |Combine(xs, ys)| == |xs| * |ys|
  {
    if xs == [] {
    } else {
      CombineCount(xs[..|xs| - 1], ys);
      assert |xs| * |ys| == (|xs| - 1) * |ys| + |ys|;
    }
  }

  /** The order of the product: the first factor is outermost. */
  lemma {:induction false} CombineAt(xs: seq<Assignment>, ys: seq<Assignment>, i: nat, j: nat)
    requires i < |xs| && j < |ys|
    ensures i * |ys| + j < |Combine(xs, ys)|
    ensures Combine(xs, ys)[i * |ys| + j] == xs[i] + ys[j]
    decreases |xs|
  {
    var most, n := xs[..|xs| - 1], |xs| - 1;
    CombineCount(most, ys);
    CombineCount(xs, ys);
    if i == n {
      assert Combine(xs, ys)[n * |ys| + j] == Extend(xs[n], ys)[j];
    } else {
      CombineAt(most, ys, i, j);
    }
  }

  // ---- Facts about grouping

  predicate StartsWith(c: Pending, key: string) { c.keys != [] && c.keys[0] == key }

  /** The places of the chains that start with `key`, in order. */
  function Members(cs: seq<Pending>, key: string): seq<nat> {
    if cs == [] then []
    else
      var before, c := Members(cs[..|cs| - 1], key), cs[|cs| - 1];
      if StartsWith(c, key) then before + [c.pos] else before
  }

  predicate NoDuplicateKeys(keys: seq<string>) {
    forall i, j :: 0 <= i < j < |keys| ==> keys[i] != keys[j]
  }

  lemma {:induction false} FirstKeysComplete(cs: seq<Pending>)
    ensures forall c :: c in cs && c.keys != [] ==> c.keys[0] in FirstKeys(cs)
    ensures forall k :: k in FirstKeys(cs) ==> exists c :: c in cs && StartsWith(c, k)
    ensures NoDuplicateKeys(FirstKeys(cs))
  {
    if cs == [] {
    } else {
      var most, c := cs[..|cs| - 1], cs[|cs| - 1];
      assert cs == most + [c];
      FirstKeysComplete(most);
      forall k | k in FirstKeys(cs)
        ensures exists c :: c in cs && StartsWith(c, k)
      {
        if k in FirstKeys(most) {
          var d :| d in most && StartsWith(d, k);
          assert d in cs;
        } else {
          assert c in cs && StartsWith(c, k);
        }
      }
    }
  }

  lemma {:induction false} BranchKeysExact(items: map<string, Db>, keys: seq<string>)
    ensures forall k :: k in BranchKeys(items, keys) <==> k in keys && IsBranch(items, k)
  {
    if keys == [] {
    } else {
      assert keys == keys[..|keys| - 1] + [keys[|keys| - 1]];
      BranchKeysExact(items, keys[..|keys| - 1]);
    }
  }

  lemma UnderMembers(cs: seq<Pending>, key: string)
    ensures |Under(cs, key)| == |Members(cs, key)|
    ensures forall i :: 0 <= i < |Members(cs, key)| ==>
              Under(cs, key)[i].pos == Members(cs, key)[i] &&
              Pending(Members(cs, key)[i], [key] + Under(cs, key)[i].keys) in cs
    ensures forall c :: c in cs && StartsWith(c, key) ==> Pending(c.pos, c.keys[1..]) in Under(cs, key)
  {
    UnderCount(cs, key);
    forall i | 0 <= i < |Members(cs, key)|
      ensures Under(cs, key)[i].pos == Members(cs, key)[i]
      ensures Pending(Members(cs, key)[i], [key] + Under(cs, key)[i].keys) in cs
    {
      UnderAt(cs, key, i);
    }
    forall c | c in cs && StartsWith(c, key)
      ensures Pending(c.pos, c.keys[1..]) in Under(cs, key)
    {
      UnderHas(cs, key, c);
    }
  }

  lemma {:induction false} UnderCount(cs: seq<Pending>, key: string)
    ensures |Under(cs, key)| == |Members(cs, key)|
  {
    if cs == [] {
    } else {
      UnderCount(cs[..|cs| - 1], key);
    }
  }

  lemma {:induction false} UnderAt(cs: seq<Pending>, key: string, i: nat)
    requires i < |Under(cs, key)| == |Members(cs, key)|
    ensures Under(cs, key)[i].pos == Members(cs, key)[i]
    ensures Pending(Members(cs, key)[i], [key] + Under(cs, key)[i].keys) in cs
    decreases |cs|
  {
    var most, c := cs[..|cs| - 1], cs[|cs| - 1];
    UnderCount(most, key);
    if i < |Under(most, key)| {
      UnderAt(most, key, i);
    } else {
      assert [key] + c.keys[1..] == c.keys;
    }
  }

  lemma {:induction false} UnderHas(cs: seq<Pending>, key: string, c: Pending)
    requires c in cs && StartsWith(c, key)
    ensures Pending(c.pos, c.keys[1..]) in Under(cs, key)
    decreases |cs|
  {
    var most, last := cs[..|cs| - 1], cs[|cs| - 1];
    assert cs == most + [last];
    if c == last {
      var u := Under(cs, key);
      assert u[|u| - 1] == Pending(c.pos, c.keys[1..]);
    } else {
      UnderHas(most, key, c);
    }
  }

  /** The places that continue into the given keys. */
  ghost function PlacesUnder(cs: seq<Pending>, keys: seq<string>): set<nat> {
    set c | c in cs && c.keys != [] && c.keys[0] in keys :: c.pos
  }

  lemma UnderPlaces(cs: seq<Pending>, key: string)
    ensures Positions(Under(cs, key)) == PlacesUnder(cs, [key])
  {
    UnderMembers(cs, key);
    var u := Under(cs, key);
    forall p | p in Positions(u)
      ensures p in PlacesUnder(cs, [key])
    {
      var i :| 0 <= i < |u| && u[i].pos == p;
      assert Pending(p, [key] + u[i].keys) in cs;
    }
    forall p | p in PlacesUnder(cs, [key])
      ensures p in Positions(u)
    {
      var c :| c in cs && c.keys != [] && c.keys[0] in [key] && c.pos == p;
      assert Pending(c.pos, c.keys[1..]) in u;
    }
  }

  lemma {:induction false} SettledKeys(act: MissingKeys, items: map<string, Db>, cs: seq<Pending>)
    ensures Settled(act, items, cs).Keys == set c | c in cs && Settles(items, c.keys) :: c.pos
  {
    if cs == [] {
    } else {
      var most, c := cs[..|cs| - 1], cs[|cs| - 1];
      assert cs == most + [c];
      SettledKeys(act, items, most);
    }
  }

  predicate DistinctPlaces(cs: seq<Pending>) {
    forall i, j :: 0 <= i < j < |cs| ==> cs[i].pos != cs[j].pos
  }

  lemma {:induction false} SettledValues(act: MissingKeys, items: map<string, Db>, cs: seq<Pending>, i: nat)
    requires DistinctPlaces(cs) && i < |cs| && Settles(items, cs[i].keys)
    ensures cs[i].pos in Settled(act, items, cs)
    ensures Settled(act, items, cs)[cs[i].pos] == SettledSegment(act, items, cs[i].keys)
    decreases |cs|
  {
    var most := cs[..|cs| - 1];
    if i == |cs| - 1 {
    } else {
      SettledValues(act, items, most, i);
    }
  }

  lemma PlacesSplit(items: map<string, Db>, cs: seq<Pending>)
    ensures Positions(cs) == (set c | c in cs && Settles(items, c.keys) :: c.pos)
                             + PlacesUnder(cs, BranchKeys(items, FirstKeys(cs)))
  {
    FirstKeysComplete(cs);
    BranchKeysExact(items, FirstKeys(cs));
    var settled := set c | c in cs && Settles(items, c.keys) :: c.pos;
    forall p | p in Positions(cs)
      ensures p in settled + PlacesUnder(cs, BranchKeys(items, FirstKeys(cs)))
    {
      var c :| c in cs && c.pos == p;
      if Settles(items, c.keys) {
        assert p in settled;
      }
    }
  }

  // ---- Solutions cover the pending chains

  /** Every solution assigns exactly the places of the pending chains. */
  lemma {:induction false} SolutionsCover(act: MissingKeys, db: Db, cs: seq<Pending>)
    ensures Covers(Solutions(act, db, cs), Positions(cs))
    decreases db, 1, 0
  {
    match db
    case Leaf(_) =>
    case List(elements) =>
      ListSolutionsCover(act, db, cs, |elements|);
    case Dict(items) =>
      var keys := BranchKeys(items, FirstKeys(cs));
      BranchKeysExact(items, FirstKeys(cs));
      BranchSolutionsCover(act, db, cs, keys);
      SettledKeys(act, items, cs);
      PlacesSplit(items, cs);
  }

  lemma {:induction false} ListSolutionsCover(act: MissingKeys, db: Db, cs: seq<Pending>, n: nat)
    requires db.List? && n <= |db.elements|
    ensures Covers(ListSolutions(act, db, cs, n), Positions(cs))
    decreases db, 0, n
  {
    if n == 0 {
    } else {
      ListSolutionsCover(act, db, cs, n - 1);
      SolutionsCover(act, db.elements[n - 1], cs);
    }
  }

  lemma {:induction false} BranchSolutionsCover(act: MissingKeys, db: Db, cs: seq<Pending>, keys: seq<string>)
    requires db.Dict? && forall k :: k in keys ==> k in db.items
    ensures Covers(BranchSolutions(act, db, cs, keys), PlacesUnder(cs, keys))
    decreases db, 0, |keys|
  {
    if keys == [] {
      assert PlacesUnder(cs, keys) == {};
    } else {
      var most, k := keys[..|keys| - 1], keys[|keys| - 1];
      assert keys == most + [k];
      BranchSolutionsCover(act, db, cs, most);
      SolutionsCover(act, db.items[k], Under(cs, k));
      UnderPlaces(cs, k);
      assert PlacesUnder(cs, keys) == PlacesUnder(cs, most) + PlacesUnder(cs, [k]);
      CombineCovers(BranchSolutions(act, db, cs, most), Solutions(act, db.items[k], Under(cs, k)),
                    PlacesUnder(cs, most), PlacesUnder(cs, [k]));
    }
  }
}
