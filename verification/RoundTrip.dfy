/** Build and export undo each other (src/bootstrap.rs), up to the kinds the tree
    cannot hold beside one another. */
module RoundTrip {
  import opened Text
  import opened Ipld
  import Acl
  import Trie
  import opened ProtocolIds
  import opened Bootstrap

  /** Exactly one leading slash. */
  ghost predicate CanonicalId(id: string) {
    id != [] && id[0] == '/' && (|id| > 1 ==> id[1] != '/')
  }

  ghost predicate AllCanonical(kinds: map<string, BootstrapKind>) {
    forall id :: id in kinds ==> CanonicalId(id)
  }

  /** Another kind's ID is a proper segment prefix of this one. */
  ghost predicate Shadowed(kinds: map<string, BootstrapKind>, id: string) {
    exists other :: other in kinds && Segments(other) < Segments(id)
  }

  /** What a build keeps of a descriptor. */
  ghost function Normal(cfg: Descriptor): Descriptor {
    cfg.(kinds := map id | id in cfg.kinds && !Shadowed(cfg.kinds, id) :: cfg.kinds[id],
         acl := Some(RootAcl(cfg)))
  }

  // ── The tree a build makes ──────────────────────────────────────────────────

  ghost function PathsOf(ids: seq<string>): seq<Trie.Path> {
    seq(|ids|, i requires 0 <= i < |ids| => Segments(ids[i]))
  }

  ghost function LinksOf(cidOf: Block -> Cid, kinds: map<string, BootstrapKind>, ids: seq<string>): seq<Cid>
    requires forall i :: 0 <= i < |ids| ==> ids[i] in kinds
  {
    seq(|ids|, i requires 0 <= i < |ids| => cidOf(KindBlockAt(kinds, ids[i])))
  }

  lemma {:induction false} BuildInsertsAll(cidOf: Block -> Cid, kinds: map<string, BootstrapKind>, ids: seq<string>, n: nat)
    requires n <= |ids| && forall i :: 0 <= i < |ids| ==> ids[i] in kinds
    ensures KindTreeOf(cidOf, kinds, ids, n) == Trie.InsertAll(PathsOf(ids)[..n], LinksOf(cidOf, kinds, ids)[..n])
    decreases n
  {
    if n > 0 {
      BuildInsertsAll(cidOf, kinds, ids, n - 1);
      assert PathsOf(ids)[..n][..n - 1] == PathsOf(ids)[..n - 1];
      assert LinksOf(cidOf, kinds, ids)[..n][..n - 1] == LinksOf(cidOf, kinds, ids)[..n - 1];
    }
  }

  lemma MinimalIffNotShadowed(kinds: map<string, BootstrapKind>, id: string)
    requires id in kinds
    ensures Trie.Minimal(Segments(id), PathsOf(SortedKeys(kinds.Keys))) <==> !Shadowed(kinds, id)
  {
    var ids := SortedKeys(kinds.Keys);
    var ps := PathsOf(ids);
    forall other | other in kinds ensures Segments(other) in ps {
      assert other in ids;
      var i :| 0 <= i < |ids| && ids[i] == other;
      assert ps[i] == Segments(other);
    }
    forall p | p in ps ensures exists other :: other in kinds && Segments(other) == p {
      var i :| 0 <= i < |ps| && ps[i] == p;
      assert ids[i] in kinds;
    }
  }

  lemma CanonicalRoundTrip(id: string)
    requires CanonicalId(id)
    ensures PathId(Segments(id)) == id && IsProtocolPath(Segments(id))
  {
    CanonicalIdIsListed(id);
    SegmentsFormProtocolPath(id);
  }

  /** A tree that holds exactly the kinds nobody shadows, each under its own ID
      and linked to its own node. */
  ghost predicate HoldsKinds(v: Trie.Links, cidOf: Block -> Cid, kinds: map<string, BootstrapKind>) {
    && (forall p :: p in v ==> HoldsPath(v, cidOf, kinds, p))
    && (forall id :: id in kinds && !Shadowed(kinds, id) ==> Segments(id) in v)
  }

  ghost predicate HoldsPath(v: Trie.Links, cidOf: Block -> Cid, kinds: map<string, BootstrapKind>, p: Trie.Path)
    requires p in v
  {
    var id := PathId(p);
    && id in kinds && Segments(id) == p && IsProtocolPath(p)
    && !Shadowed(kinds, id) && v[p] == cidOf(KindBlockAt(kinds, id))
  }

  /** Of all IDs with this path, the last in the order of IDs. */
  ghost predicate IsLastId(kinds: map<string, BootstrapKind>, p: Trie.Path, id: string) {
    id in kinds && Segments(id) == p
    && forall other :: other in kinds && Segments(other) == p && other != id ==> Less(other, id)
  }

  /** The link of a path in a tree built of these kinds. */
  ghost predicate LinksLast(v: Trie.Links, cidOf: Block -> Cid, kinds: map<string, BootstrapKind>, p: Trie.Path)
    requires p in v
  {
    exists id :: IsLastId(kinds, p, id) && v[p] == cidOf(KindBlockAt(kinds, id))
  }

  /** However the IDs are spelled: a build keeps exactly the paths of IDs that no
      other ID is a segment prefix of, and for each path the last of its kinds. */
  lemma BuiltTreeOfAnyIds(cidOf: Block -> Cid, kinds: map<string, BootstrapKind>)
    ensures Reachable(AllKinds(cidOf, kinds))
    ensures var v := Trie.View(AllKinds(cidOf, kinds));
      && (forall id :: id in kinds ==> (Segments(id) in v <==> !Shadowed(kinds, id)))
      && (forall p :: p in v ==> LinksLast(v, cidOf, kinds, p))
  {
    var ids := SortedKeys(kinds.Keys);
    BuiltView(cidOf, kinds);
    var v := Trie.View(AllKinds(cidOf, kinds));
    forall id | id in kinds ensures Segments(id) in v <==> !Shadowed(kinds, id) {
      MinimalIffNotShadowed(kinds, id);
    }
    forall p | p in v ensures IsProtocolPath(p) && LinksLast(v, cidOf, kinds, p) {
      var i := Trie.LastAt(p, PathsOf(ids));
      LastIsLastId(kinds, p, i);
      SegmentsFormProtocolPath(ids[i]);
    }
  }

  lemma LastIsLastId(kinds: map<string, BootstrapKind>, p: Trie.Path, i: int)
    requires Trie.IsLast(p, PathsOf(SortedKeys(kinds.Keys)), i)
    ensures IsLastId(kinds, p, SortedKeys(kinds.Keys)[i])
  {
    var ids := SortedKeys(kinds.Keys);
    forall other | other in kinds && Segments(other) == p && other != ids[i] ensures Less(other, ids[i]) {
      assert other in ids;
      var j :| 0 <= j < |ids| && ids[j] == other;
      assert PathsOf(ids)[j] == p;
    }
  }

  lemma BuiltView(cidOf: Block -> Cid, kinds: map<string, BootstrapKind>)
    ensures Trie.Canonical(AllKinds(cidOf, kinds))
    ensures var ids := SortedKeys(kinds.Keys);
      Trie.View(AllKinds(cidOf, kinds)) == Trie.MinimalLinks(PathsOf(ids), LinksOf(cidOf, kinds, ids))
  {
    var ids := SortedKeys(kinds.Keys);
    BuildInsertsAll(cidOf, kinds, ids, |ids|);
    assert PathsOf(ids)[..|ids|] == PathsOf(ids);
    assert LinksOf(cidOf, kinds, ids)[..|ids|] == LinksOf(cidOf, kinds, ids);
    Trie.OnlyMinimalPathsRemain(PathsOf(ids), LinksOf(cidOf, kinds, ids));
  }

  /** Canonical IDs have paths of their own: each unshadowed kind stays, under its
      ID and linked to its own node. */
  lemma BuiltTree(cidOf: Block -> Cid, kinds: map<string, BootstrapKind>)
    requires AllCanonical(kinds)
    ensures Reachable(AllKinds(cidOf, kinds))
    ensures HoldsKinds(Trie.View(AllKinds(cidOf, kinds)), cidOf, kinds)
  {
    BuiltTreeOfAnyIds(cidOf, kinds);
    var v := Trie.View(AllKinds(cidOf, kinds));
    forall p | p in v ensures HoldsPath(v, cidOf, kinds, p) {
      assert LinksLast(v, cidOf, kinds, p);
      var id :| IsLastId(kinds, p, id) && v[p] == cidOf(KindBlockAt(kinds, id));
      CanonicalRoundTrip(id);
    }
  }

  // ── Reading the kinds back ──────────────────────────────────────────────────

  lemma {:induction false} CollectedByIndex(k: Kubo, pairs: seq<(string, Cid)>)
    requires forall i :: 0 <= i < |pairs| ==> k.GetKind(pairs[i].1).Some?
    requires forall i, j :: 0 <= i < j < |pairs| ==> pairs[i].0 != pairs[j].0
    ensures forall i :: 0 <= i < |pairs| ==>
              pairs[i].0 in Collected(k, pairs) && Collected(k, pairs)[pairs[i].0] == KindOf(k.GetKind(pairs[i].1).value)
    ensures forall id :: id in Collected(k, pairs) ==> exists i :: 0 <= i < |pairs| && pairs[i].0 == id
    decreases |pairs|
  {
    if pairs != [] {
      var n := |pairs| - 1;
      CollectedByIndex(k, pairs[..n]);
      forall id | id in Collected(k, pairs) ensures exists i :: 0 <= i < |pairs| && pairs[i].0 == id {
        if id != pairs[n].0 {
          var i :| 0 <= i < n && pairs[..n][i].0 == id;
          assert pairs[i].0 == id;
        }
      }
      forall i | 0 <= i < n ensures pairs[i].0 in Collected(k, pairs)
          && Collected(k, pairs)[pairs[i].0] == KindOf(k.GetKind(pairs[i].1).value) {
        assert pairs[..n][i] == pairs[i];
      }
    }
  }

  ghost predicate KindsResolve(k: Kubo, v: Trie.Links) {
    forall p :: p in v ==> k.GetKind(v[p]).Some?
  }

  /** `kinds` lists every stored path under its ID, with the node it links to. */
  ghost predicate ReadsBack(k: Kubo, v: Trie.Links, kinds: map<string, BootstrapKind>)
    requires KindsResolve(k, v)
  {
    && (forall p :: p in v ==> PathId(p) in kinds && kinds[PathId(p)] == KindOf(k.GetKind(v[p]).value))
    && (forall id :: id in kinds ==> Segments(id) in v && PathId(Segments(id)) == id)
  }

  lemma PairsAreLeaves(m: Manifest)
    requires Reachable(m.kinds)
    ensures |KindPairs(m)| == |LeafPaths(m.kinds)|
    ensures forall i :: 0 <= i < |KindPairs(m)| ==>
              && LeafPaths(m.kinds)[i] in Trie.View(m.kinds)
              && KindPairs(m)[i] == (PathId(LeafPaths(m.kinds)[i]), Trie.View(m.kinds)[LeafPaths(m.kinds)[i]])
    ensures forall i, j :: 0 <= i < j < |KindPairs(m)| ==> KindPairs(m)[i].0 != KindPairs(m)[j].0
  {
    IterationIsComplete(m.kinds);
    ListedPairsAreLeaves(m.kinds);
  }

  ghost function LeafIndex(m: Manifest, p: Trie.Path): (i: nat)
    requires Reachable(m.kinds) && p in Trie.View(m.kinds)
    ensures i < |LeafPaths(m.kinds)| && LeafPaths(m.kinds)[i] == p
  {
    ListingFindsEveryLeaf(m.kinds);
    assert p in LeafPaths(m.kinds);
    var i: nat :| i < |LeafPaths(m.kinds)| && LeafPaths(m.kinds)[i] == p;
    i
  }

  lemma AllPairsResolve(k: Kubo, m: Manifest)
    requires Reachable(m.kinds)
    ensures (forall i :: 0 <= i < |KindPairs(m)| ==> k.GetKind(KindPairs(m)[i].1).Some?)
        <==> KindsResolve(k, Trie.View(m.kinds))
  {
    PairsAreLeaves(m);
    var pairs, v := KindPairs(m), Trie.View(m.kinds);
    if forall i :: 0 <= i < |pairs| ==> k.GetKind(pairs[i].1).Some? {
      forall p | p in v ensures k.GetKind(v[p]).Some? {
        var i := LeafIndex(m, p);
        assert pairs[i].1 == v[p];
      }
    }
  }

  /** For a reachable tree, reading the kinds back goes leaf by leaf. */
  lemma ReadBack(k: Kubo, m: Manifest)
    requires Reachable(m.kinds)
    requires forall i :: 0 <= i < |KindPairs(m)| ==> k.GetKind(KindPairs(m)[i].1).Some?
    ensures KindsResolve(k, Trie.View(m.kinds)) && ReadsBack(k, Trie.View(m.kinds), Collected(k, KindPairs(m)))
  {
    var pairs, ps, v := KindPairs(m), LeafPaths(m.kinds), Trie.View(m.kinds);
    AllPairsResolve(k, m);
    PairsAreLeaves(m);
    CollectedByIndex(k, pairs);
    var kinds := Collected(k, pairs);
    forall p | p in v ensures PathId(p) in kinds && kinds[PathId(p)] == KindOf(k.GetKind(v[p]).value) {
      var i := LeafIndex(m, p);
      assert pairs[i] == (PathId(p), v[p]);
    }
    forall id | id in kinds ensures Segments(id) in v && PathId(Segments(id)) == id {
      var i :| 0 <= i < |pairs| && pairs[i].0 == id;
      ListedIdLeadsBack(ps[i]);
    }
  }

  // ── Build, then export ──────────────────────────────────────────────────────

  /** Exporting what a build published gives back the descriptor with its root
      ACL spelled out and its shadowed kinds gone, and nothing else. */
  lemma ExportUndoesBuild(k: Kubo, cfg: Descriptor, config: map<string, Yaml>, lang: string, bundled: map<string, Cid>,
                          d: Descriptor)
    requires k.Valid() && Stored(k, cfg)
    requires AllCanonical(cfg.kinds)
    requires forall n :: n in cfg.entities ==> cfg.entities[n].Inline?
    ensures var m := ManifestOf(k.cidOf, cfg, config, lang, bundled);
      Resolves(k, m) && (Exports(k, m, d) <==> d == Normal(cfg))
  {
    BuiltTree(k.cidOf, cfg.kinds);
    ExportOfLinked(k, cfg, ManifestOf(k.cidOf, cfg, config, lang, bundled), d);
  }

  lemma ExportOfLinked(k: Kubo, cfg: Descriptor, m: Manifest, d: Descriptor)
    requires k.Valid() && Stored(k, cfg)
    requires AllCanonical(cfg.kinds) && forall n :: n in cfg.entities ==> cfg.entities[n].Inline?
    requires Reachable(m.kinds) && HoldsKinds(Trie.View(m.kinds), k.cidOf, cfg.kinds)
    requires m.entities == map n | n in cfg.entities :: EntityLink(k.cidOf, cfg.entities[n])
    requires m.acls == map n | n in cfg.acls :: k.cidOf(AclBlock(cfg.acls[n]))
    requires m.acl == Some(k.cidOf(AclBlock(RootAcl(cfg))))
    ensures Resolves(k, m) && (Exports(k, m, d) <==> d == Normal(cfg))
  {
    KindsComeBack(k, cfg, m);
    EntitiesComeBack(k, cfg, m.entities);
    AclsComeBack(k, cfg, m.acls);
  }

  lemma EntitiesComeBack(k: Kubo, cfg: Descriptor, links: map<string, Cid>)
    requires EntitiesStored(k, cfg) && forall n :: n in cfg.entities ==> cfg.entities[n].Inline?
    requires links == map n | n in cfg.entities :: EntityLink(k.cidOf, cfg.entities[n])
    ensures forall n :: n in links ==> k.GetEntity(links[n]).Some?
    ensures (map n | n in links :: InlineOf(k.GetEntity(links[n]).value)) == cfg.entities
  {}

  lemma AclsComeBack(k: Kubo, cfg: Descriptor, links: map<string, Cid>)
    requires AclsStored(k, cfg)
    requires links == map n | n in cfg.acls :: k.cidOf(AclBlock(cfg.acls[n]))
    ensures forall n :: n in links ==> k.GetAcl(links[n]).Some?
    ensures (map n | n in links :: k.GetAcl(links[n]).value) == cfg.acls
  {}

  lemma KindsComeBack(k: Kubo, cfg: Descriptor, m: Manifest)
    requires KindsStored(k, cfg) && AllCanonical(cfg.kinds)
    requires Reachable(m.kinds) && HoldsKinds(Trie.View(m.kinds), k.cidOf, cfg.kinds)
    ensures forall i :: 0 <= i < |KindPairs(m)| ==> k.GetKind(KindPairs(m)[i].1).Some?
    ensures Collected(k, KindPairs(m)) == Normal(cfg).kinds
  {
    HeldKindsReadBack(k, cfg, Trie.View(m.kinds));
    AllPairsResolve(k, m);
    ReadBack(k, m);
    OneWayToReadBack(k, Trie.View(m.kinds), Collected(k, KindPairs(m)), Normal(cfg).kinds);
  }

  lemma HeldKindsReadBack(k: Kubo, cfg: Descriptor, v: Trie.Links)
    requires KindsStored(k, cfg) && AllCanonical(cfg.kinds)
    requires HoldsKinds(v, k.cidOf, cfg.kinds)
    ensures KindsResolve(k, v) && ReadsBack(k, v, Normal(cfg).kinds)
  {
    forall p | p in v ensures k.GetKind(v[p]) == Some(KindNodeOf(PathId(p), cfg.kinds[PathId(p)])) {
      assert HoldsPath(v, k.cidOf, cfg.kinds, p);
      assert k.Has(KindBlockAt(cfg.kinds, PathId(p)));
    }
    forall id | id in Normal(cfg).kinds ensures PathId(Segments(id)) == id {
      CanonicalRoundTrip(id);
    }
  }

  lemma OneWayToReadBack(k: Kubo, v: Trie.Links, a: map<string, BootstrapKind>, b: map<string, BootstrapKind>)
    requires KindsResolve(k, v) && ReadsBack(k, v, a) && ReadsBack(k, v, b)
    ensures a == b
  {}

  lemma NothingShadowedInNormal(cfg: Descriptor, id: string)
    requires id in Normal(cfg).kinds
    ensures !Shadowed(Normal(cfg).kinds, id)
  {}

  /** Building from the export publishes the very same manifest, so the root
      identifier does not change either. */
  lemma RebuildingChangesNothing(cidOf: Block -> Cid, cfg: Descriptor, config: map<string, Yaml>, lang: string,
                                 bundled: map<string, Cid>)
    requires AllCanonical(cfg.kinds)
    ensures ManifestOf(cidOf, Normal(cfg), config, lang, bundled) == ManifestOf(cidOf, cfg, config, lang, bundled)
    ensures Normal(Normal(cfg)) == Normal(cfg)
  {
    var n := Normal(cfg);
    forall id | id in n.kinds ensures !Shadowed(n.kinds, id) { NothingShadowedInNormal(cfg, id); }
    assert n.kinds == Normal(n).kinds;
    BuiltTree(cidOf, cfg.kinds);
    BuiltTree(cidOf, n.kinds);
    var a, b := AllKinds(cidOf, cfg.kinds), AllKinds(cidOf, n.kinds);
    SameHeldKinds(cidOf, cfg, Trie.View(a), Trie.View(b));
    Trie.CanonicalTreesAreTheirViews(a, b);
  }

  lemma HeldInNormal(cidOf: Block -> Cid, cfg: Descriptor, v: Trie.Links, w: Trie.Links, p: Trie.Path)
    requires HoldsKinds(v, cidOf, cfg.kinds) && HoldsKinds(w, cidOf, Normal(cfg).kinds) && p in v
    ensures p in w && v[p] == w[p]
  {
    assert HoldsPath(v, cidOf, cfg.kinds, p);
    var id := PathId(p);
    NothingShadowedInNormal(cfg, id);
    assert HoldsPath(w, cidOf, Normal(cfg).kinds, p);
    assert KindBlockAt(Normal(cfg).kinds, id) == KindBlockAt(cfg.kinds, id);
  }

  lemma SameHeldKinds(cidOf: Block -> Cid, cfg: Descriptor, v: Trie.Links, w: Trie.Links)
    requires HoldsKinds(v, cidOf, cfg.kinds) && HoldsKinds(w, cidOf, Normal(cfg).kinds)
    ensures v == w
  {
    forall p | p in w ensures p in v {
      assert HoldsPath(w, cidOf, Normal(cfg).kinds, p);
    }
    hide HoldsKinds;
    forall p | p in v ensures p in w && v[p] == w[p] {
      HeldInNormal(cidOf, cfg, v, w, p);
    }
  }

  // ── Export, then build, for a manifest that has lived ───────────────────────

  /** A node that the bootstrap format can express in full. */
  ghost predicate Pristine(node: EntityNode) {
    node.parent == None && node.displayLabel == None && node.lifecycle == New
  }

  lemma RebuiltEntity(k: Kubo, cid: Cid)
    requires k.Valid() && k.GetEntity(cid).Some?
    ensures EntityLink(k.cidOf, InlineOf(k.GetEntity(cid).value)) == cid <==> Pristine(k.GetEntity(cid).value)
  {
    var node := k.GetEntity(cid).value;
    assert k.cidOf(EntityBlock(node)) == cid;
    assert SameCid(k.cidOf, EntityBlock(node), EntityBlock(EntityNodeOf(InlineOf(node)))) <==>
           k.cidOf(EntityBlock(EntityNodeOf(InlineOf(node)))) == cid;
  }

  lemma RebuiltAcls(k: Kubo, links: map<string, Cid>, docs: map<string, Acl.AclMap>)
    requires k.Valid() && forall n :: n in links ==> k.GetAcl(links[n]).Some?
    requires docs == map n | n in links :: k.GetAcl(links[n]).value
    ensures (map n | n in docs :: k.cidOf(AclBlock(docs[n]))) == links
  {}

  lemma RebuiltEntities(k: Kubo, links: map<string, Cid>, d: map<string, BootstrapEntity>)
    requires k.Valid() && forall n :: n in links ==> k.GetEntity(links[n]).Some?
    requires d == map n | n in links :: InlineOf(k.GetEntity(links[n]).value)
    ensures (map n | n in d :: EntityLink(k.cidOf, d[n])) == links
        <==> forall n :: n in links ==> Pristine(k.GetEntity(links[n]).value)
  {
    var rebuilt := map n | n in d :: EntityLink(k.cidOf, d[n]);
    assert rebuilt.Keys == links.Keys;
    forall n | n in links ensures rebuilt[n] == links[n] <==> Pristine(k.GetEntity(links[n]).value) {
      RebuiltEntity(k, links[n]);
    }
  }

  /** Every kind node carries the ID it is listed under. */
  ghost predicate OwnIds(k: Kubo, v: Trie.Links)
    requires KindsResolve(k, v)
  {
    forall p :: p in v ==> k.GetKind(v[p]).value.protocol == PathId(p)
  }

  lemma ListedIdIsCanonical(p: Trie.Path)
    requires IsProtocolPath(p)
    ensures CanonicalId(PathId(p))
  {
    if p[0] == "" {
      assert |p| == 1 && PathId([]) == "";
    } else {
      assert p[0][0] in p[0] && PathId(p)[1] == p[0][0];
    }
  }

  lemma ReadKindsAreNormal(k: Kubo, m: Manifest, kinds: map<string, BootstrapKind>)
    requires Reachable(m.kinds) && KindsResolve(k, Trie.View(m.kinds)) && ReadsBack(k, Trie.View(m.kinds), kinds)
    ensures AllCanonical(kinds) && forall id :: id in kinds ==> !Shadowed(kinds, id)
  {
    Trie.ViewPrefixFree(m.kinds);
    forall id | id in kinds ensures CanonicalId(id) && !Shadowed(kinds, id) {
      ListedIdIsCanonical(Segments(id));
      forall other | other in kinds ensures !(Segments(other) < Segments(id)) {
        assert Segments(other) in Trie.View(m.kinds) && Segments(id) in Trie.View(m.kinds);
      }
    }
  }

  lemma RebuiltKind(k: Kubo, cid: Cid, id: string)
    requires k.Valid() && k.GetKind(cid).Some?
    ensures k.cidOf(KindBlock(KindNodeOf(id, KindOf(k.GetKind(cid).value)))) == cid <==> k.GetKind(cid).value.protocol == id
  {
    var node := k.GetKind(cid).value;
    assert SameCid(k.cidOf, KindBlock(node), KindBlock(KindNodeOf(id, KindOf(node)))) <==>
           k.cidOf(KindBlock(KindNodeOf(id, KindOf(node)))) == cid;
  }

  lemma RebuiltKinds(k: Kubo, m: Manifest, kinds: map<string, BootstrapKind>)
    requires k.Valid() && Reachable(m.kinds)
    requires KindsResolve(k, Trie.View(m.kinds)) && ReadsBack(k, Trie.View(m.kinds), kinds)
    ensures AllKinds(k.cidOf, kinds) == m.kinds <==> OwnIds(k, Trie.View(m.kinds))
  {
    ReadKindsAreNormal(k, m, kinds);
    BuiltTree(k.cidOf, kinds);
    var v, w := Trie.View(m.kinds), Trie.View(AllKinds(k.cidOf, kinds));
    HeldLinks(k, v, w, kinds);
    Trie.CanonicalTreesAreTheirViews(AllKinds(k.cidOf, kinds), m.kinds);
  }

  lemma HeldLinks(k: Kubo, v: Trie.Links, w: Trie.Links, kinds: map<string, BootstrapKind>)
    requires k.Valid() && KindsResolve(k, v) && ReadsBack(k, v, kinds) && HoldsKinds(w, k.cidOf, kinds)
    requires forall id :: id in kinds ==> !Shadowed(kinds, id)
    requires forall p :: p in v ==> IsProtocolPath(p)
    ensures w == v <==> OwnIds(k, v)
  {
    forall p ensures p in w <==> p in v {
      if p in v {
        ListedIdLeadsBack(p);
        assert PathId(p) in kinds;
      }
      if p in w {
        assert HoldsPath(w, k.cidOf, kinds, p);
      }
    }
    forall p | p in v ensures w[p] == v[p] <==> k.GetKind(v[p]).value.protocol == PathId(p) {
      assert HoldsPath(w, k.cidOf, kinds, p);
      RebuiltKind(k, v[p], PathId(p));
    }
  }

  lemma RebuiltRootAcl(k: Kubo, m: Manifest, d: Descriptor)
    requires k.Valid() && (m.acl.Some? ==> k.GetAcl(m.acl.value).Some? && d.acl == k.GetAcl(m.acl.value))
    ensures m.acl.Some? ==> Some(k.cidOf(AclBlock(RootAcl(d)))) == m.acl
  {
    if m.acl.Some? {
      assert k.blocks[m.acl.value] == AclBlock(RootAcl(d));
    }
  }

  lemma RebuiltParts(k: Kubo, m: Manifest, d: Descriptor)
    requires k.Valid() && Reachable(m.kinds) && Resolves(k, m) && Exports(k, m, d)
    ensures KindsResolve(k, Trie.View(m.kinds))
    ensures AllKinds(k.cidOf, d.kinds) == m.kinds <==> OwnIds(k, Trie.View(m.kinds))
    ensures (map n | n in d.entities :: EntityLink(k.cidOf, d.entities[n])) == m.entities
        <==> forall n :: n in m.entities ==> Pristine(k.GetEntity(m.entities[n]).value)
    ensures (map n | n in d.acls :: k.cidOf(AclBlock(d.acls[n]))) == m.acls
    ensures m.acl.Some? ==> Some(k.cidOf(AclBlock(RootAcl(d)))) == m.acl
  {
    RebuiltEntities(k, m.entities, d.entities);
    RebuiltAcls(k, m.acls, d.acls);
    RebuiltRootAcl(k, m, d);
    hide EntityLink, Pristine, RootAcl, AllKinds, OwnIds;
    ReadBack(k, m);
    RebuiltKinds(k, m, d.kinds);
  }

  /** Re-bootstrapping an exported manifest keeps every ACL link; it keeps the
      entity links if and only if no entity has a parent, a label or a lifecycle
      other than `new`, which the format drops, and the kind links if and only if
      every kind node carries the ID it is listed under. */
  lemma RebuildOfExport(k: Kubo, m: Manifest, d: Descriptor, config: map<string, Yaml>, lang: string,
                        bundled: map<string, Cid>)
    requires k.Valid() && Reachable(m.kinds) && Resolves(k, m) && Exports(k, m, d)
    ensures KindsResolve(k, Trie.View(m.kinds))
    ensures var m' := ManifestOf(k.cidOf, d, config, lang, bundled);
      && m'.acls == m.acls
      && (m.acl.Some? ==> m'.acl == m.acl)
      && (m'.entities == m.entities <==> forall n :: n in m.entities ==> Pristine(k.GetEntity(m.entities[n]).value))
      && (m'.kinds == m.kinds <==> OwnIds(k, Trie.View(m.kinds)))
  {
    RebuiltParts(k, m, d);
    hide Exports, Resolves, AllKinds, OwnIds, KindsResolve, EntityLink, Pristine, RootAcl;
  }

  /** Of each kind an export says what the node it is linked to says, under the ID it
      is listed under. */
  lemma ExportSaysKinds(k: Kubo, m: Manifest, d: Descriptor, p: Trie.Path)
    requires Reachable(m.kinds) && Resolves(k, m) && Exports(k, m, d)
    ensures p in Trie.View(m.kinds) ==>
              && PathId(p) in d.kinds && k.GetKind(Trie.View(m.kinds)[p]).Some?
              && var bk, node := d.kinds[PathId(p)], k.GetKind(Trie.View(m.kinds)[p]).value;
              && bk.api == node.api && bk.hostFunctions == node.hostFunctions && bk.evaluator == node.evaluator
              && bk.attributes == node.attributes && bk.allow == node.allow
  {
    ReadBack(k, m);
    hide Collected, KindPairs;
  }

  /** An export needs every link: it fails when, and only when, some kind, entity,
      named access list or the root access list cannot be read. */
  lemma ExportNeedsEveryLink(k: Kubo, m: Manifest)
    requires Reachable(m.kinds)
    ensures Resolves(k, m) <==>
              && (forall p :: p in Trie.View(m.kinds) ==> k.GetKind(Trie.View(m.kinds)[p]).Some?)
              && (forall n :: n in m.entities ==> k.GetEntity(m.entities[n]).Some?)
              && (forall n :: n in m.acls ==> k.GetAcl(m.acls[n]).Some?)
              && (m.acl.Some? ==> k.GetAcl(m.acl.value).Some?)
  {
    AllPairsResolve(k, m);
  }
}
