/** The nested tree that stores kinds by the segments of their protocol ID
    (src/entity.rs). Its meaning is the map from segment paths to links that
    `View` reads off; everything the tree operations do is stated on that map. */
module Trie {
  import opened Text

  type Cid = string
  type Path = seq<string>

  datatype Node = Leaf(link: Cid) | Branch(inner: Tree)
  type Tree = map<string, Node>

  // ── The three recursive operations ──────────────────────────────────────────

  function Insert(m: Tree, path: Path, link: Cid): Tree
    decreases |path|
  {
    if path == [] then m
    else if |path| == 1 then m[path[0] := Leaf(link)]
    else
      match (if path[0] in m then m[path[0]] else Branch(map[]))
      case Branch(inner) => m[path[0] := Branch(Insert(inner, path[1..], link))]
      case Leaf(_) => m
  }

  function Get(m: Tree, path: Path): Option<Cid>
    decreases |path|
  {
    if path == [] || path[0] !in m then None
    else
      match m[path[0]]
      case Leaf(link) => if |path| == 1 then Some(link) else None
      case Branch(inner) => if |path| == 1 then None else Get(inner, path[1..])
  }

  /** The new tree, and whether anything was removed. */
  function Remove(m: Tree, path: Path): (Tree, bool)
    decreases |path|
  {
    if path == [] then (m, false)
    else if |path| == 1 then (m - {path[0]}, path[0] in m)
    else if path[0] in m && m[path[0]].Branch? then
      var (inner, removed) := Remove(m[path[0]].inner, path[1..]);
      (if inner == map[] then m - {path[0]} else m[path[0] := Branch(inner)], removed)
    else (m, false)
  }

  // ── Meaning ─────────────────────────────────────────────────────────────────

  type Links = map<Path, Cid>

  /** The paths that end in a leaf. */
  ghost function Dom(m: Tree): set<Path>
    decreases Branch(m)
  {
    (set k | k in m && m[k].Leaf? :: [k]) +
    (set k, q | k in m && m[k].Branch? && q in Dom(m[k].inner) :: [k] + q)
  }

  lemma {:induction false} DomIsGet(m: Tree, p: Path)
    ensures p in Dom(m) <==> Get(m, p).Some?
    decreases |p|
  {
    if p != [] && p[0] in m && m[p[0]].Branch? {
      DomIsGet(m[p[0]].inner, p[1..]);
      assert p == [p[0]] + p[1..];
    }
    if p in Dom(m) && !(exists k :: k in m && m[k].Leaf? && p == [k]) {
      var k, q :| k in m && m[k].Branch? && q in Dom(m[k].inner) && p == [k] + q;
      DomIsGet(m[k].inner, q);
      assert p[1..] == q;
    }
    if p != [] && p[0] in m && m[p[0]].Leaf? && |p| == 1 {
      assert p == [p[0]];
    }
  }

  ghost function View(m: Tree): (v: Links)
    ensures forall p :: p in v <==> Get(m, p).Some?
    ensures forall p :: p in v ==> v[p] == Get(m, p).value
  {
    forall p ensures p in Dom(m) <==> Get(m, p).Some? { DomIsGet(m, p); }
    map p | p in Dom(m) :: Get(m, p).value
  }

  /** No stored path runs through another one. */
  ghost predicate PrefixFree(v: Links) {
    forall p, q :: p in v && q in v && p <= q ==> p == q
  }

  ghost predicate Blocked(v: Links, p: Path) {
    exists q :: q in v && q < p
  }

  /** Insertion on the flat map: refused under a stored proper prefix, otherwise
      it replaces everything below the path. */
  ghost function Put(v: Links, p: Path, link: Cid): Links {
    if Blocked(v, p) then v else (map q | q in v && !(p <= q) :: v[q])[p := link]
  }

  ghost function Drop(v: Links, p: Path): Links {
    map q | q in v && !(p <= q) :: v[q]
  }

  /** Every inner branch holds something, all the way down. */
  ghost predicate Canonical(m: Tree)
    decreases Branch(m)
  {
    forall k :: k in m && m[k].Branch? ==> m[k].inner != map[] && Canonical(m[k].inner)
  }

  // ── Insertion refines Put ───────────────────────────────────────────────────

  /** A leaf sits on the way to `p`. */
  ghost predicate PassesLeaf(m: Tree, p: Path)
    decreases |p|
  {
    |p| >= 2 && p[0] in m && (m[p[0]].Leaf? || PassesLeaf(m[p[0]].inner, p[1..]))
  }

  lemma {:induction false} LeafOnTheWay(m: Tree, p: Path) returns (q: Path)
    requires PassesLeaf(m, p)
    ensures Get(m, q).Some? && q < p
    decreases |p|
  {
    if m[p[0]].Leaf? {
      q := [p[0]];
    } else {
      var below := LeafOnTheWay(m[p[0]].inner, p[1..]);
      q := [p[0]] + below;
      assert q[1..] == below;
      assert p == [p[0]] + p[1..];
    }
  }

  lemma {:induction false} StoredPrefixIsOnTheWay(m: Tree, p: Path, q: Path)
    requires Get(m, q).Some? && q < p
    ensures PassesLeaf(m, p)
    decreases |p|
  {
    assert q[0] == p[0];
    if m[p[0]].Branch? {
      assert q[1..] < p[1..];
      StoredPrefixIsOnTheWay(m[p[0]].inner, p[1..], q[1..]);
    }
  }

  lemma BlockedIsPassingALeaf(m: Tree, p: Path)
    ensures Blocked(View(m), p) <==> PassesLeaf(m, p)
  {
    if PassesLeaf(m, p) {
      var q := LeafOnTheWay(m, p);
      assert q in View(m);
    }
    if Blocked(View(m), p) {
      var q :| q in View(m) && q < p;
      StoredPrefixIsOnTheWay(m, p, q);
    }
  }

  lemma {:induction false} GetInsert(m: Tree, p: Path, link: Cid, q: Path)
    requires p != []
    ensures Get(Insert(m, p, link), q) ==
            if PassesLeaf(m, p) then Get(m, q)
            else if q == p then Some(link)
            else if p <= q then None
            else Get(m, q)
    decreases |p|
  {
    var k := p[0];
    if q != [] && q[0] == k {
      assert p == [k] + p[1..] && q == [k] + q[1..];
      assert p <= q <==> p[1..] <= q[1..];
      if |p| >= 2 && |q| >= 2 && !(k in m && m[k].Leaf?) {
        GetInsert(if k in m then m[k].inner else map[], p[1..], link, q[1..]);
      }
    }
  }

  lemma InsertRefines(m: Tree, p: Path, link: Cid)
    requires p != []
    ensures View(Insert(m, p, link)) == Put(View(m), p, link)
  {
    forall q
      ensures q in View(Insert(m, p, link)) <==> q in Put(View(m), p, link)
      ensures q in Put(View(m), p, link) ==> View(Insert(m, p, link))[q] == Put(View(m), p, link)[q]
    {
      GetInsert(m, p, link, q);
      BlockedIsPassingALeaf(m, p);
    }
  }

  // ── Removal refines Drop ────────────────────────────────────────────────────

  lemma {:induction false} GetRemove(m: Tree, p: Path, q: Path)
    requires p != []
    ensures Get(Remove(m, p).0, q) == if p <= q then None else Get(m, q)
    decreases |p|
  {
    var k := p[0];
    if |p| == 1 {
      if q != [] && q[0] == k { assert p <= q; }
    } else if k in m && m[k].Branch? && q != [] && q[0] == k && |q| >= 2 {
      GetRemove(m[k].inner, p[1..], q[1..]);
      assert p == [k] + p[1..] && q == [k] + q[1..];
      assert p <= q <==> p[1..] <= q[1..];
    }
  }

  lemma {:induction false} HasLeaf(m: Tree) returns (p: Path)
    requires Canonical(m) && m != map[]
    ensures Get(m, p).Some?
    decreases Branch(m)
  {
    var k :| k in m;
    match m[k]
    case Leaf(_) =>
      p := [k];
    case Branch(inner) =>
      var q := HasLeaf(inner);
      p := [k] + q;
      assert p[1..] == q;
  }

  /** Something is stored at `p` or below it. */
  ghost predicate StoresUnder(m: Tree, p: Path) {
    exists q :: Get(m, q).Some? && p <= q
  }

  lemma Witness(m: Tree, p: Path, q: Path)
    requires Get(m, q).Some? && p <= q
    ensures StoresUnder(m, p)
  {}

  lemma {:induction false} RemovedIffStored(m: Tree, p: Path)
    requires p != [] && Canonical(m)
    ensures Remove(m, p).1 <==> StoresUnder(m, p)
    decreases |p|
  {
    var k := p[0];
    if k in m && m[k].Branch? {
      var inner := m[k].inner;
      if |p| == 1 {
        var q := HasLeaf(inner);
        StoredBelow(m, k, q);
        Witness(m, p, [k] + q);
      } else {
        RemovedIffStored(inner, p[1..]);
        if Remove(m, p).1 {
          var q :| Get(inner, q).Some? && p[1..] <= q;
          StoredBelow(m, k, q);
          assert p == [k] + p[1..];
          Witness(m, p, [k] + q);
        }
        if StoresUnder(m, p) {
          var q :| Get(m, q).Some? && p <= q;
          Witness(inner, p[1..], q[1..]);
        }
      }
    } else if k in m && |p| == 1 {
      Witness(m, p, p);
    } else {
      forall q | p <= q ensures Get(m, q).None? {
        assert q[0] == k && |q| >= |p|;
      }
    }
  }

  lemma StoredBelow(m: Tree, k: string, q: Path)
    requires k in m && m[k].Branch? && Get(m[k].inner, q).Some?
    ensures Get(m, [k] + q) == Get(m[k].inner, q)
  {}

  lemma DropChangesIff(v: Links, p: Path)
    ensures Drop(v, p) != v <==> exists q :: q in v && p <= q
  {}

  lemma RemoveRefines(m: Tree, p: Path)
    requires p != []
    ensures View(Remove(m, p).0) == Drop(View(m), p)
  {
    forall q
      ensures q in View(Remove(m, p).0) <==> q in Drop(View(m), p)
      ensures q in Drop(View(m), p) ==> View(Remove(m, p).0)[q] == Drop(View(m), p)[q]
    {
      GetRemove(m, p, q);
    }
  }

  lemma ReportsRemoval(m: Tree, p: Path)
    requires p != [] && Canonical(m)
    ensures Remove(m, p).1 <==> Drop(View(m), p) != View(m)
  {
    var removed, v := Remove(m, p).1, View(m);
    RemovedIffStored(m, p);
    DropChangesIff(v, p);
    if removed {
      var q :| Get(m, q).Some? && p <= q;
      assert q in v;
    }
    if q :| q in v && p <= q {
      Witness(m, p, q);
    }
  }

  // ── Structure ───────────────────────────────────────────────────────────────

  lemma {:induction false} StoredPathsArePrefixFree(m: Tree, p: Path, q: Path)
    requires p in View(m) && q in View(m) && p <= q
    ensures p == q
    decreases |p|
  {
    if m[p[0]].Branch? {
      StoredPathsArePrefixFree(m[p[0]].inner, p[1..], q[1..]);
      assert p == [p[0]] + p[1..] && q == [q[0]] + q[1..];
    } else {
      assert p == [p[0]] && q == [q[0]];
    }
  }

  lemma ViewPrefixFree(m: Tree)
    ensures PrefixFree(View(m))
  {
    forall p, q | p in View(m) && q in View(m) && p <= q ensures p == q {
      StoredPathsArePrefixFree(m, p, q);
    }
  }

  lemma {:induction false} InsertCanonical(m: Tree, p: Path, link: Cid)
    requires Canonical(m)
    ensures Canonical(Insert(m, p, link))
    ensures p != [] ==> Insert(m, p, link) != map[]
    decreases |p|
  {
    if |p| >= 2 {
      if p[0] !in m {
        InsertCanonical(map[], p[1..], link);
      } else if m[p[0]].Branch? {
        InsertCanonical(m[p[0]].inner, p[1..], link);
      }
    }
    if p != [] {
      assert p[0] in Insert(m, p, link);
    }
  }

  lemma {:induction false} RemoveCanonical(m: Tree, p: Path)
    requires Canonical(m)
    ensures Canonical(Remove(m, p).0)
    decreases |p|
  {
    if |p| >= 2 && p[0] in m && m[p[0]].Branch? {
      RemoveCanonical(m[p[0]].inner, p[1..]);
    }
  }

  lemma {:induction false} SameLookupsSameTree(a: Tree, b: Tree)
    requires Canonical(a) && Canonical(b)
    requires forall p :: Get(a, p) == Get(b, p)
    ensures a == b
    decreases Branch(a)
  {
    SameKeys(a, b);
    SameKeys(b, a);
    forall k | k in a
      ensures k in b && a[k] == b[k]
    {
      assert Get(a, [k]) == Get(b, [k]);
      if a[k].Branch? {
        var q := HasLeaf(a[k].inner);
        var up := [k] + q;
        assert up[1..] == q && Get(a, up) == Get(b, up);
        forall p ensures Get(a[k].inner, p) == Get(b[k].inner, p) {
          var up := [k] + p;
          assert up[1..] == p && Get(a, up) == Get(b, up);
        }
        SameLookupsSameTree(a[k].inner, b[k].inner);
      }
    }
  }

  lemma SameKeys(a: Tree, b: Tree)
    requires Canonical(a)
    requires forall p :: Get(a, p) == Get(b, p)
    ensures forall k :: k in a ==> k in b
  {
    forall k | k in a ensures k in b {
      if a[k].Leaf? {
        assert Get(a, [k]) == Get(b, [k]);
      } else {
        var q := HasLeaf(a[k].inner);
        var up := [k] + q;
        assert up[1..] == q && Get(a, up) == Get(b, up);
      }
    }
  }

  /** A tree without empty branches is determined by the links it stores. */
  lemma CanonicalTreesAreTheirViews(a: Tree, b: Tree)
    requires Canonical(a) && Canonical(b)
    ensures View(a) == View(b) <==> a == b
  {
    if View(a) == View(b) {
      forall p ensures Get(a, p) == Get(b, p) {
        assert p in View(a) <==> p in View(b);
      }
      SameLookupsSameTree(a, b);
    }
  }

  // ── Laws of the tree, read off the flat map ─────────────────────────────────

  ghost predicate Comparable(p: Path, q: Path) { p <= q || q <= p }

  lemma PutThenDrop(v: Links, p: Path, link: Cid)
    requires forall q :: q in v ==> !Comparable(p, q)
    ensures Drop(Put(v, p, link), p) == v
    ensures p in Put(v, p, link) && p !in v
  {}

  lemma BlockedAfterPut(v: Links, p: Path, x: Cid, q: Path)
    requires !Comparable(p, q)
    ensures Blocked(Put(v, p, x), q) <==> Blocked(v, q)
  {
    if r :| r in v && r < q {
      assert !(p <= r);
      assert r in Put(v, p, x);
    }
  }

  lemma PutsCommute(v: Links, p: Path, x: Cid, q: Path, y: Cid)
    requires !Comparable(p, q)
    ensures Put(Put(v, p, x), q, y) == Put(Put(v, q, y), p, x)
  {
    BlockedAfterPut(v, p, x, q);
    BlockedAfterPut(v, q, y, p);
    var a, b := Put(Put(v, p, x), q, y), Put(Put(v, q, y), p, x);
    forall r ensures (r in a <==> r in b) && (r in a ==> a[r] == b[r]) {}
  }

  /** Inserting a path that is comparable with no stored path, then removing it,
      gives back the very same tree, branch by branch. */
  lemma InsertThenRemove(m: Tree, p: Path, link: Cid)
    requires p != [] && Canonical(m)
    requires forall q :: q in View(m) ==> !Comparable(p, q)
    ensures Remove(Insert(m, p, link), p) == (m, true)
  {
    var t := Insert(m, p, link);
    InsertRefines(m, p, link);
    InsertCanonical(m, p, link);
    RemoveRefines(t, p);
    ReportsRemoval(t, p);
    RemoveCanonical(t, p);
    PutThenDrop(View(m), p, link);
    CanonicalTreesAreTheirViews(Remove(t, p).0, m);
  }

  /** Inserts at incomparable paths commute, blocked or not. */
  lemma InsertsCommute(m: Tree, p: Path, x: Cid, q: Path, y: Cid)
    requires p != [] && q != [] && Canonical(m) && !Comparable(p, q)
    ensures Insert(Insert(m, p, x), q, y) == Insert(Insert(m, q, y), p, x)
  {
    PutsCommute(View(m), p, x, q, y);
    TwoInserts(m, p, x, q, y);
    TwoInserts(m, q, y, p, x);
    CanonicalTreesAreTheirViews(Insert(Insert(m, p, x), q, y), Insert(Insert(m, q, y), p, x));
  }

  lemma TwoInserts(m: Tree, p: Path, x: Cid, q: Path, y: Cid)
    requires p != [] && q != [] && Canonical(m)
    ensures Canonical(Insert(Insert(m, p, x), q, y))
    ensures View(Insert(Insert(m, p, x), q, y)) == Put(Put(View(m), p, x), q, y)
  {
    InsertRefines(m, p, x);
    InsertRefines(Insert(m, p, x), q, y);
    InsertCanonical(m, p, x);
    InsertCanonical(Insert(m, p, x), q, y);
  }

  // ── Runs from the empty tree ────────────────────────────────────────────────

  datatype Op = InsertOp(path: Path, link: Cid) | RemoveOp(path: Path)

  function Apply(m: Tree, op: Op): Tree {
    match op
    case InsertOp(p, link) => Insert(m, p, link)
    case RemoveOp(p) => Remove(m, p).0
  }

  function Run(m: Tree, ops: seq<Op>): Tree
    decreases |ops|
  {
    if ops == [] then m else Run(Apply(m, ops[0]), ops[1..])
  }

  ghost function RunFlat(v: Links, ops: seq<Op>): Links
    decreases |ops|
  {
    if ops == [] then v else
      RunFlat(match ops[0] case InsertOp(p, link) => Put(v, p, link) case RemoveOp(p) => Drop(v, p), ops[1..])
  }

  /** Every run of the tree is a run of the flat map, and stays canonical. */
  lemma {:induction false} RunRefines(m: Tree, ops: seq<Op>)
    requires Canonical(m)
    requires forall i :: 0 <= i < |ops| ==> ops[i].path != []
    ensures View(Run(m, ops)) == RunFlat(View(m), ops)
    ensures Canonical(Run(m, ops)) && PrefixFree(View(Run(m, ops)))
    decreases |ops|
  {
    ViewPrefixFree(m);
    if ops != [] {
      match ops[0] {
        case InsertOp(p, link) => InsertRefines(m, p, link); InsertCanonical(m, p, link);
        case RemoveOp(p) => RemoveRefines(m, p); RemoveCanonical(m, p);
      }
      RunRefines(Apply(m, ops[0]), ops[1..]);
    }
  }

  // ── Inserting many links ────────────────────────────────────────────────────

  function InsertAll(ps: seq<Path>, cs: seq<Cid>): Tree
    requires |ps| == |cs|
    decreases |ps|
  {
    if ps == [] then map[] else
      Insert(InsertAll(ps[..|ps| - 1], cs[..|cs| - 1]), ps[|ps| - 1], cs[|cs| - 1])
  }

  ghost predicate Minimal(p: Path, ps: seq<Path>) {
    p in ps && forall q :: q in ps ==> !(q < p)
  }

  ghost predicate IsLast(p: Path, ps: seq<Path>, i: int) {
    0 <= i < |ps| && ps[i] == p && forall j :: i < j < |ps| ==> ps[j] != p
  }

  lemma {:induction false} LastExists(p: Path, ps: seq<Path>)
    requires p in ps
    ensures exists i :: IsLast(p, ps, i)
    decreases |ps|
  {
    var n := |ps| - 1;
    if ps[n] == p {
      assert IsLast(p, ps, n);
    } else {
      assert p in ps[..n];
      LastExists(p, ps[..n]);
      var i :| IsLast(p, ps[..n], i);
      assert IsLast(p, ps, i);
    }
  }

  /** Where a path was inserted last. */
  ghost function LastAt(p: Path, ps: seq<Path>): (i: int)
    requires p in ps
    ensures IsLast(p, ps, i)
  {
    LastExists(p, ps);
    var i :| IsLast(p, ps, i);
    i
  }

  lemma {:induction false} MinimalBelow(p: Path, ps: seq<Path>) returns (r: Path)
    requires p in ps
    ensures Minimal(r, ps) && r <= p
    decreases |p|
  {
    if Minimal(p, ps) {
      r := p;
    } else {
      var q :| q in ps && q < p;
      r := MinimalBelow(q, ps);
    }
  }

  ghost function MinimalLinks(ps: seq<Path>, cs: seq<Cid>): Links
    requires |ps| == |cs|
  {
    map p | p in ps && Minimal(p, ps) :: cs[LastAt(p, ps)]
  }

  lemma MinimalAfter(before: seq<Path>, p: Path, r: Path)
    ensures Minimal(r, before + [p]) && r != p <==> Minimal(r, before) && !(p <= r)
  {
    assert p in before + [p];
    assert forall q :: q in before ==> q in before + [p];
    if Minimal(r, before + [p]) && r != p {
      assert !(p < r);
    }
    if Minimal(r, before) && !(p <= r) {
      forall q | q in before + [p] ensures !(q < r) {
        assert q in before || q == p;
      }
    }
  }

  lemma LastAfter(before: seq<Path>, p: Path, r: Path)
    requires r in before + [p]
    ensures LastAt(r, before + [p]) == if r == p then |before| else if r in before then LastAt(r, before) else |before|
  {
    var ps := before + [p];
    var i := LastAt(r, ps);
    assert ps[|before|] == p && forall j :: 0 <= j < |before| ==> ps[j] == before[j];
    if r != p {
      var j := LastAt(r, before);
      assert ps[j] == r;
      assert before[i] == r;
    }
  }

  lemma PutKeepsMinimal(before: seq<Path>, bs: seq<Cid>, p: Path, c: Cid)
    requires |before| == |bs|
    ensures Put(MinimalLinks(before, bs), p, c) == MinimalLinks(before + [p], bs + [c])
  {
    var v, ps := MinimalLinks(before, bs), before + [p];
    var w := MinimalLinks(ps, bs + [c]);
    BlockedByMinimal(before, bs, p);
    if Blocked(v, p) {
      NothingBelowBlocked(before, p);
    }
    forall r ensures (r in w && r != p) <==> (r in v && !(p <= r)) {
      MinimalAfter(before, p, r);
    }
    forall r | r in w ensures w[r] == if r == p then c else v[r] {
      MinimalAfter(before, p, r);
      LastAfter(before, p, r);
    }
    assert p in w <==> !Blocked(v, p);
    hide Minimal, Blocked, LastAt, MinimalLinks;
  }

  lemma NothingBelowBlocked(before: seq<Path>, p: Path)
    requires !Minimal(p, before + [p])
    ensures forall r :: Minimal(r, before) ==> !(p <= r)
  {
    assert p in before + [p];
    var q :| q in before + [p] && q < p;
    assert q in before;
    forall r | Minimal(r, before) ensures !(p <= r) {
      assert p <= r ==> q < r;
    }
  }

  lemma BlockedByMinimal(before: seq<Path>, bs: seq<Cid>, p: Path)
    requires |before| == |bs|
    ensures Blocked(MinimalLinks(before, bs), p) <==> !Minimal(p, before + [p])
  {
    var v, ps := MinimalLinks(before, bs), before + [p];
    assert p in ps && forall q :: q in before ==> q in ps;
    if !Blocked(v, p) {
      forall q | q in ps ensures !(q < p) {
        if q in before {
          var r := MinimalBelow(q, before);
          assert r in v;
        }
      }
    }
  }

  /** Whatever the order of insertion, exactly the paths without a stored proper
      prefix remain, each with the link that was inserted last. */
  lemma {:induction false} OnlyMinimalPathsRemain(ps: seq<Path>, cs: seq<Cid>)
    requires |ps| == |cs| && forall i :: 0 <= i < |ps| ==> ps[i] != []
    ensures Canonical(InsertAll(ps, cs))
    ensures View(InsertAll(ps, cs)) == MinimalLinks(ps, cs)
    decreases |ps|
  {
    if ps != [] {
      var n := |ps| - 1;
      var t := InsertAll(ps[..n], cs[..n]);
      assert ps[..n] + [ps[n]] == ps && cs[..n] + [cs[n]] == cs;
      OnlyMinimalPathsRemain(ps[..n], cs[..n]);
      InsertRefines(t, ps[n], cs[n]);
      InsertCanonical(t, ps[n], cs[n]);
      PutKeepsMinimal(ps[..n], cs[..n], ps[n], cs[n]);
    } else {
      assert View(map[]) == map[];
    }
  }
}
