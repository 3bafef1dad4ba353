/** Protocol IDs such as `/ma/root/0.0.1` as keys of the kind tree
    (src/entity.rs): the listing of a tree finds every leaf again. */
module ProtocolIds {
  import opened Text
  import opened Trie

  /** The tree path of a protocol ID: leading slashes stripped, split on `/`. */
  function Segments(protocol: string): (p: Path)
    ensures p != []
  {
    Split(TrimStart(protocol, '/'), '/')
  }

  /** The ID under which a path is listed: `/` before every segment. */
  function PathId(p: Path): string {
    if p == [] then "" else "/" + p[0] + PathId(p[1..])
  }

  /** The paths protocol IDs have: segments hold no slash, and only a path of a
      single segment may begin with the empty one. */
  ghost predicate IsProtocolPath(p: Path) {
    p != [] && AllFree(p, '/') && (|p| > 1 ==> p[0] != "")
  }

  lemma SegmentsFormProtocolPath(protocol: string)
    ensures IsProtocolPath(Segments(protocol))
  {
    SplitFree(TrimStart(protocol, '/'), '/');
  }

  lemma {:induction false} PathIdIsJoin(p: Path)
    requires p != []
    ensures PathId(p) == "/" + Join(p, '/')
  {
    if |p| > 1 {
      PathIdIsJoin(p[1..]);
      assert "/" + p[0] + ("/" + Join(p[1..], '/')) == "/" + (p[0] + "/" + Join(p[1..], '/'));
    }
  }

  /** Listing a path and reading the listed ID back is the identity. */
  lemma ListedIdLeadsBack(p: Path)
    requires IsProtocolPath(p)
    ensures Segments(PathId(p)) == p
  {
    PathIdIsJoin(p);
    var body := Join(p, '/');
    assert body == [] || body[0] != '/' by {
      assert p[0] == "" || p[0][0] in p[0];
      assert |p| > 1 ==> body[0] == p[0][0];
    }
    assert TrimStart(body, '/') == body;
    assert ("/" + body)[1..] == body;
    assert TrimStart("/" + body, '/') == body;
    SplitJoin(p, '/');
  }

  /** An ID with exactly one leading slash is what its own path is listed as. */
  lemma CanonicalIdIsListed(protocol: string)
    requires protocol != [] && protocol[0] == '/'
    requires |protocol| > 1 ==> protocol[1] != '/'
    ensures PathId(Segments(protocol)) == protocol
  {
    PathIdIsJoin(Segments(protocol));
    JoinSplit(TrimStart(protocol, '/'), '/');
    assert TrimStart(protocol, '/') == protocol[1..];
  }

  // ── Listing order ───────────────────────────────────────────────────────────

  ghost predicate PathLess(p: Path, q: Path) {
    q != [] && (p == [] || Less(p[0], q[0]) || (p[0] == q[0] && PathLess(p[1..], q[1..])))
  }

  ghost predicate AscendingPaths(ps: seq<Path>) {
    forall i, j :: 0 <= i < j < |ps| ==> PathLess(ps[i], ps[j])
  }

  lemma PathLessIrreflexive(p: Path)
    ensures !PathLess(p, p)
  {
    if p != [] { LessTrichotomy(p[0], p[0]); PathLessIrreflexive(p[1..]); }
  }

  ghost function Prepend(k: string, ps: seq<Path>): seq<Path> {
    seq(|ps|, i requires 0 <= i < |ps| => [k] + ps[i])
  }

  /** Leaves below the given root keys, depth first in key order. */
  ghost function LeavesUnder(m: Tree, keys: seq<string>): seq<Path>
    requires forall k :: k in keys ==> k in m
    decreases Branch(m), |keys|
  {
    if keys == [] then [] else
      (match m[keys[0]]
       case Leaf(_) => [[keys[0]]]
       case Branch(inner) => Prepend(keys[0], LeavesUnder(inner, SortedKeys(inner.Keys))))
      + LeavesUnder(m, keys[1..])
  }

  ghost function LeafPaths(m: Tree): seq<Path> {
    LeavesUnder(m, SortedKeys(m.Keys))
  }

  lemma InPrepend(k: string, ps: seq<Path>, p: Path)
    ensures p in Prepend(k, ps) <==> p != [] && p[0] == k && p[1..] in ps
  {
    if p in Prepend(k, ps) {
      var i :| 0 <= i < |ps| && p == [k] + ps[i];
      assert p[1..] == ps[i];
    }
    if p != [] && p[0] == k && p[1..] in ps {
      var i :| 0 <= i < |ps| && ps[i] == p[1..];
      assert Prepend(k, ps)[i] == [k] + p[1..] == p;
    }
  }

  lemma {:induction false} LeavesAreStored(m: Tree, keys: seq<string>, p: Path)
    requires forall k :: k in keys ==> k in m
    ensures p in LeavesUnder(m, keys) <==> Get(m, p).Some? && p[0] in keys
    decreases Branch(m), |keys|
  {
    if keys != [] {
      var k := keys[0];
      LeavesAreStored(m, keys[1..], p);
      if m[k].Branch? {
        var inner := m[k].inner;
        if p != [] {
          LeavesAreStored(inner, SortedKeys(inner.Keys), p[1..]);
        }
        InPrepend(k, LeavesUnder(inner, SortedKeys(inner.Keys)), p);
      } else if p != [] && p[0] == k && |p| == 1 {
        assert p == [k];
      }
    }
  }

  lemma {:induction false} LeavesAscend(m: Tree, keys: seq<string>)
    requires forall k :: k in keys ==> k in m
    requires Ascending(keys)
    ensures AscendingPaths(LeavesUnder(m, keys))
    decreases Branch(m), |keys|
  {
    if keys != [] {
      var k := keys[0];
      LeavesAscend(m, keys[1..]);
      var first := match m[k]
        case Leaf(_) => [[k]]
        case Branch(inner) => Prepend(k, LeavesUnder(inner, SortedKeys(inner.Keys)));
      var rest := LeavesUnder(m, keys[1..]);
      if m[k].Branch? {
        var below := LeavesUnder(m[k].inner, SortedKeys(m[k].inner.Keys));
        LeavesAscend(m[k].inner, SortedKeys(m[k].inner.Keys));
        forall i, j | 0 <= i < j < |first| ensures PathLess(first[i], first[j]) {
          assert first[i][1..] == below[i] && first[j][1..] == below[j];
        }
      }
      forall i, j | 0 <= i < |first| && 0 <= j < |rest| ensures PathLess(first[i], rest[j]) {
        LeavesAreStored(m, keys[1..], rest[j]);
        assert rest[j][0] in keys[1..];
      }
      assert LeavesUnder(m, keys) == first + rest;
    }
  }

  // ── Trees reached through protocol IDs ──────────────────────────────────────

  /** What every tree built by `insert_protocol`/`remove_protocol` satisfies. */
  ghost predicate Reachable(m: Tree) {
    Canonical(m) && forall p :: p in View(m) ==> IsProtocolPath(p)
  }

  lemma InsertReachable(m: Tree, protocol: string, link: Cid)
    requires Reachable(m)
    ensures Reachable(Insert(m, Segments(protocol), link))
    ensures View(Insert(m, Segments(protocol), link)) == Put(View(m), Segments(protocol), link)
  {
    SegmentsFormProtocolPath(protocol);
    InsertRefines(m, Segments(protocol), link);
    InsertCanonical(m, Segments(protocol), link);
  }

  lemma RemoveReachable(m: Tree, protocol: string)
    requires Reachable(m)
    ensures Reachable(Remove(m, Segments(protocol)).0)
    ensures View(Remove(m, Segments(protocol)).0) == Drop(View(m), Segments(protocol))
    ensures Remove(m, Segments(protocol)).1 <==> Drop(View(m), Segments(protocol)) != View(m)
  {
    RemoveRefines(m, Segments(protocol));
    ReportsRemoval(m, Segments(protocol));
    RemoveCanonical(m, Segments(protocol));
  }

  lemma LeafBelow(m: Tree, k: string) returns (p: Path)
    requires Canonical(m) && k in m && m[k].Branch?
    ensures p in View(m) && |p| > 1 && p[0] == k
  {
    var q := HasLeaf(m[k].inner);
    p := [k] + q;
    StoredBelow(m, k, q);
  }

  /** Only a leaf can sit under the empty root key: no listed ID begins with two
      slashes, so stripping leading slashes loses nothing. */
  lemma EmptyRootKeyIsLeaf(m: Tree)
    requires Reachable(m) && "" in m
    ensures m[""].Leaf?
  {
    if m[""].Branch? {
      var p := LeafBelow(m, "");
      assert false;
    }
  }

  /** Listing is complete, without repetition, in segment order, and every
      listed ID looks its own leaf up again. */
  lemma ListingFindsEveryLeaf(m: Tree)
    requires Reachable(m)
    ensures AscendingPaths(LeafPaths(m))
    ensures forall p :: p in LeafPaths(m) <==> p in View(m)
    ensures forall p :: p in LeafPaths(m) ==> Get(m, Segments(PathId(p))) == Some(View(m)[p])
    ensures forall i, j :: 0 <= i < j < |LeafPaths(m)| ==> PathId(LeafPaths(m)[i]) != PathId(LeafPaths(m)[j])
  {
    LeavesAscend(m, SortedKeys(m.Keys));
    forall p ensures p in LeafPaths(m) <==> p in View(m) {
      LeavesAreStored(m, SortedKeys(m.Keys), p);
    }
    forall p | p in LeafPaths(m) ensures Segments(PathId(p)) == p {
      ListedIdLeadsBack(p);
    }
    forall i, j | 0 <= i < j < |LeafPaths(m)| ensures LeafPaths(m)[i] != LeafPaths(m)[j] {
      PathLessIrreflexive(LeafPaths(m)[i]);
    }
  }

  datatype ProtocolOp = InsertProtocol(protocol: string, link: Cid) | RemoveProtocol(protocol: string)

  function RunProtocols(m: Tree, ops: seq<ProtocolOp>): Tree
    decreases |ops|
  {
    if ops == [] then m else
      RunProtocols(
        match ops[0]
        case InsertProtocol(id, link) => Insert(m, Segments(id), link)
        case RemoveProtocol(id) => Remove(m, Segments(id)).0,
        ops[1..])
  }

  lemma {:induction false} RunsAreReachable(m: Tree, ops: seq<ProtocolOp>)
    requires Reachable(m)
    ensures Reachable(RunProtocols(m, ops))
    decreases |ops|
  {
    if ops != [] {
      match ops[0] {
        case InsertProtocol(id, link) =>
          InsertReachable(m, id, link);
          RunsAreReachable(Insert(m, Segments(id), link), ops[1..]);
        case RemoveProtocol(id) =>
          RemoveReachable(m, id);
          RunsAreReachable(Remove(m, Segments(id)).0, ops[1..]);
      }
    }
  }

  // ── The tree as the runtime holds it ────────────────────────────────────────

  ghost function Rendered(prefix: string, ps: seq<Path>): seq<string> {
    seq(|ps|, i requires 0 <= i < |ps| => prefix + PathId(ps[i]))
  }

  lemma RenderedPrepend(prefix: string, k: string, ps: seq<Path>)
    ensures Rendered(prefix, Prepend(k, ps)) == Rendered(prefix + "/" + k, ps)
  {
    forall i | 0 <= i < |ps|
      ensures prefix + PathId(Prepend(k, ps)[i]) == (prefix + "/" + k) + PathId(ps[i])
    {
      var p := Prepend(k, ps)[i];
      assert p[0] == k && p[1..] == ps[i];
      assert prefix + ("/" + k + PathId(ps[i])) == (prefix + "/" + k) + PathId(ps[i]);
    }
  }

  lemma RenderedConcat(prefix: string, a: seq<Path>, b: seq<Path>)
    ensures Rendered(prefix, a + b) == Rendered(prefix, a) + Rendered(prefix, b)
  {}

  /** What one key of the map contributes to the listing. */
  ghost function Entry(prefix: string, k: string, node: Node): seq<string> {
    match node
    case Leaf(_) => [prefix + "/" + k]
    case Branch(inner) => Rendered(prefix + "/" + k, LeafPaths(inner))
  }

  lemma RenderedLeaf(prefix: string, k: string)
    ensures Rendered(prefix, [[k]]) == [prefix + "/" + k]
  {
    assert PathId([k]) == "/" + k + PathId([]) == "/" + k;
    assert prefix + ("/" + k) == prefix + "/" + k;
  }

  lemma RenderedStep(prefix: string, m: Tree, keys: seq<string>)
    requires keys != [] && forall k :: k in keys ==> k in m
    ensures Rendered(prefix, LeavesUnder(m, keys)) ==
            Entry(prefix, keys[0], m[keys[0]]) + Rendered(prefix, LeavesUnder(m, keys[1..]))
  {
    var k := keys[0];
    var rest := LeavesUnder(m, keys[1..]);
    match m[k] {
      case Leaf(_) =>
        RenderedLeaf(prefix, k);
        RenderedConcat(prefix, [[k]], rest);
      case Branch(inner) =>
        RenderedPrepend(prefix, k, LeafPaths(inner));
        RenderedConcat(prefix, Prepend(k, LeafPaths(inner)), rest);
    }
  }

  /** What the listing is still missing shrinks by the entry just appended. */
  lemma CollectStep(out: seq<string>, prefix: string, m: Tree, keys: seq<string>, i: nat)
    requires i < |keys| && forall k :: k in keys ==> k in m
    ensures out + Rendered(prefix, LeavesUnder(m, keys[i..]))
         == out + Entry(prefix, keys[i], m[keys[i]]) + Rendered(prefix, LeavesUnder(m, keys[i + 1..]))
  {
    RenderedStep(prefix, m, keys[i..]);
    assert keys[i..][1..] == keys[i + 1..];
  }

  lemma NothingMissing(prefix: string, m: Tree)
    ensures Rendered(prefix, LeavesUnder(m, [])) == []
  {}

  method CollectIds(m: Tree, prefix: string, ids: seq<string>) returns (out: seq<string>)
    ensures out == ids + Rendered(prefix, LeafPaths(m))
    decreases Branch(m)
  {
    hide Rendered, LeavesUnder;
    var keys := SortedKeys(m.Keys);
    out := ids;
    assert keys[0..] == keys;
    for i := 0 to |keys|
      invariant out + Rendered(prefix, LeavesUnder(m, keys[i..])) == ids + Rendered(prefix, LeafPaths(m))
    {
      ghost var before := out;
      CollectStep(out, prefix, m, keys, i);
      var path := prefix + "/" + keys[i];
      match m[keys[i]] {
        case Leaf(_) => out := out + [path];
        case Branch(inner) => out := CollectIds(inner, path, out);
      }
      assert out == before + Entry(prefix, keys[i], m[keys[i]]);
    }
    assert keys[|keys|..] == [];
    NothingMissing(prefix, m);
  }

  /** Each leaf's ID with the leaf's own link, in segment order. */
  ghost function ListedPairs(m: Tree): (pairs: seq<(string, Cid)>)
    requires Reachable(m)
    ensures |pairs| == |LeafPaths(m)|
  {
    ListingFindsEveryLeaf(m);
    seq(|LeafPaths(m)|, i requires 0 <= i < |LeafPaths(m)| => (PathId(LeafPaths(m)[i]), View(m)[LeafPaths(m)[i]]))
  }

  lemma ListedPairsAreLeaves(m: Tree)
    requires Reachable(m)
    ensures forall i :: 0 <= i < |ListedPairs(m)| ==>
              LeafPaths(m)[i] in View(m) && ListedPairs(m)[i] == (PathId(LeafPaths(m)[i]), View(m)[LeafPaths(m)[i]])
    ensures forall i, j :: 0 <= i < j < |ListedPairs(m)| ==> ListedPairs(m)[i].0 != ListedPairs(m)[j].0
  {
    ListingFindsEveryLeaf(m);
    forall i | 0 <= i < |LeafPaths(m)| ensures LeafPaths(m)[i] in View(m) {
      assert LeafPaths(m)[i] in LeafPaths(m);
    }
  }

  lemma ListedLookup(m: Tree, ids: seq<string>, i: nat)
    requires Reachable(m) && ids == Rendered("", LeafPaths(m)) && i < |ids|
    ensures Segments(ids[i]) in View(m)
    ensures ListedPairs(m)[i] == (ids[i], View(m)[Segments(ids[i])])
  {
    var p := LeafPaths(m)[i];
    ListingFindsEveryLeaf(m);
    assert p in LeafPaths(m);
    assert "" + PathId(p) == PathId(p);
    ListedIdLeadsBack(p);
  }

  /** Keep each ID that leads to a link, next to that link. */
  function Lookups(m: Tree, ids: seq<string>): seq<(string, Cid)> {
    if ids == [] then []
    else
      (match Get(m, Segments(ids[0]))
       case Some(link) => [(ids[0], link)]
       case None => [])
      + Lookups(m, ids[1..])
  }

  lemma {:induction false} LookupsSnoc(m: Tree, ids: seq<string>, id: string)
    ensures Lookups(m, ids + [id]) == Lookups(m, ids) + Lookups(m, [id])
    decreases |ids|
  {
    if ids == [] {
      assert ids + [id] == [id];
    } else {
      assert (ids + [id])[1..] == ids[1..] + [id];
      LookupsSnoc(m, ids[1..], id);
    }
  }

  lemma {:induction false} LookupsKeepAll(m: Tree, ids: seq<string>)
    requires forall i :: 0 <= i < |ids| ==> Segments(ids[i]) in View(m)
    ensures |Lookups(m, ids)| == |ids|
    ensures forall i :: 0 <= i < |ids| ==> Lookups(m, ids)[i] == (ids[i], View(m)[Segments(ids[i])])
    decreases |ids|
  {
    if ids != [] {
      assert Segments(ids[0]) in View(m);
      LookupsKeepAll(m, ids[1..]);
    }
  }

  /** Listing and looking up again keeps every leaf, with its own link. */
  lemma IterationIsComplete(m: Tree)
    requires Reachable(m)
    ensures Lookups(m, Rendered("", LeafPaths(m))) == ListedPairs(m)
  {
    var ids := Rendered("", LeafPaths(m));
    forall i | 0 <= i < |ids|
      ensures Segments(ids[i]) in View(m)
      ensures ListedPairs(m)[i] == (ids[i], View(m)[Segments(ids[i])])
    {
      ListedLookup(m, ids, i);
    }
    LookupsKeepAll(m, ids);
  }

  method IterLinks(m: Tree) returns (pairs: seq<(string, Cid)>)
    ensures pairs == Lookups(m, Rendered("", LeafPaths(m)))
  {
    var ids := CollectIds(m, "", []);
    pairs := [];
    for i := 0 to |ids|
      invariant pairs == Lookups(m, ids[..i])
    {
      LookupsSnoc(m, ids[..i], ids[i]);
      assert ids[..i + 1] == ids[..i] + [ids[i]];
      var link := Get(m, Segments(ids[i]));
      if link.Some? {
        pairs := pairs + [(ids[i], link.value)];
      }
    }
    assert ids[..|ids|] == ids;
  }

  class KindTree {
    var root: Tree

    ghost predicate Valid() reads this { Reachable(root) }

    ghost function Contents(): Links reads this { View(root) }

    constructor ()
      ensures Valid() && Contents() == map[]
    {
      root := map[];
    }

    method InsertProtocol(protocol: string, link: Cid)
      requires Valid()
      modifies this
      ensures Valid() && Contents() == Put(old(Contents()), Segments(protocol), link)
    {
      InsertReachable(root, protocol, link);
      root := Insert(root, Segments(protocol), link);
    }

    method RemoveProtocol(protocol: string) returns (removed: bool)
      requires Valid()
      modifies this
      ensures Valid() && Contents() == Drop(old(Contents()), Segments(protocol))
      ensures removed <==> Contents() != old(Contents())
    {
      RemoveReachable(root, protocol);
      var r := Remove(root, Segments(protocol));
      root := r.0;
      removed := r.1;
    }

    method GetProtocol(protocol: string) returns (link: Option<Cid>)
      ensures link.Some? <==> Segments(protocol) in Contents()
      ensures link.Some? ==> link.value == Contents()[Segments(protocol)]
    {
      link := Get(root, Segments(protocol));
    }

    method ProtocolIds() returns (ids: seq<string>)
      ensures ids == Rendered("", LeafPaths(root))
    {
      ids := CollectIds(root, "", []);
    }

    /** Every stored link comes out, under its own ID, in segment order. */
    method IterProtocols() returns (pairs: seq<(string, Cid)>)
      requires Valid()
      ensures pairs == ListedPairs(root)
    {
      IterationIsComplete(root);
      pairs := IterLinks(root);
    }
  }
}
