/** Publishing a runtime descriptor as linked blocks, and reading it back
    (src/bootstrap.rs). Maps without an order are walked in an arbitrary one. */
module Bootstrap {
  import opened Text
  import opened Ipld
  import Acl
  import Trie
  import opened ProtocolIds

  datatype BootstrapKind = BootstrapKind(api: seq<string>, hostFunctions: seq<string>, evaluator: Evaluator,
                                         attributes: map<string, Json>, allow: seq<string>)

  datatype BootstrapEntity =
    | Prepublished(cid: Cid)
    | Inline(kind: string, behaviour: Option<Cid>, acl: string, state: Option<Cid>)

  datatype Descriptor = Descriptor(kinds: map<string, BootstrapKind>, acl: Option<Acl.AclMap>,
                                   entities: map<string, BootstrapEntity>, acls: map<string, Acl.AclMap>)

  // ── The manifest a descriptor stands for ────────────────────────────────────

  function KindNodeOf(id: string, bk: BootstrapKind): KindNode {
    KindNode(id, bk.api, bk.hostFunctions, bk.evaluator, bk.attributes, bk.allow)
  }

  function EntityNodeOf(e: BootstrapEntity): EntityNode
    requires e.Inline?
  {
    EntityNode(e.kind, e.behaviour, e.acl, e.state, None, None, New)
  }

  function RootAcl(cfg: Descriptor): Acl.AclMap {
    match cfg.acl case Some(acl) => acl case None => map[]
  }

  function KindBlockAt(kinds: map<string, BootstrapKind>, id: string): Block
    requires id in kinds
  {
    KindBlock(KindNodeOf(id, kinds[id]))
  }

  function EntityLink(cidOf: Block -> Cid, e: BootstrapEntity): Cid {
    match e
    case Prepublished(cid) => cid
    case Inline(_, _, _, _) => cidOf(EntityBlock(EntityNodeOf(e)))
  }

  /** Insert the first `n` kinds one by one, in the given order of their IDs. */
  function KindTreeOf(cidOf: Block -> Cid, kinds: map<string, BootstrapKind>, ids: seq<string>, n: nat): Trie.Tree
    requires n <= |ids| && forall i :: 0 <= i < |ids| ==> ids[i] in kinds
  {
    if n == 0 then map[] else
      Trie.Insert(KindTreeOf(cidOf, kinds, ids, n - 1), Segments(ids[n - 1]), cidOf(KindBlockAt(kinds, ids[n - 1])))
  }

  /** A sorted map hands its kinds out in the order of their IDs. */
  function AllKinds(cidOf: Block -> Cid, kinds: map<string, BootstrapKind>): Trie.Tree {
    KindTreeOf(cidOf, kinds, SortedKeys(kinds.Keys), |SortedKeys(kinds.Keys)|)
  }

  function ConfigWithLang(config: map<string, Yaml>, lang: string, bundled: map<string, Cid>): map<string, Yaml> {
    if lang in bundled then config["i18n" := YamlText(lang)] else config
  }

  function ManifestOf(cidOf: Block -> Cid, cfg: Descriptor, config: map<string, Yaml>, lang: string,
                      bundled: map<string, Cid>): Manifest
  {
    Manifest(
      Some(cidOf(AclBlock(RootAcl(cfg)))),
      map n | n in cfg.acls :: cidOf(AclBlock(cfg.acls[n])),
      "/ma/runtime/0.1.0",
      AllKinds(cidOf, cfg.kinds),
      map n | n in cfg.entities :: EntityLink(cidOf, cfg.entities[n]),
      bundled,
      ConfigWithLang(config, lang, bundled))
  }

  /** The parts of the root manifest that are not the descriptor's own: a build keeps
      every setting, names the language if it is bundled, and links the languages. */
  lemma RestOfManifest(cidOf: Block -> Cid, cfg: Descriptor, config: map<string, Yaml>, lang: string, bundled: map<string, Cid>)
    ensures var m := ManifestOf(cidOf, cfg, config, lang, bundled);
      && m.protocol == "/ma/runtime/0.1.0" && m.i18n == bundled
      && (forall key :: key != "i18n" ==> (key in m.config <==> key in config))
      && (forall key :: key != "i18n" && key in config ==> m.config[key] == config[key])
      && (lang in bundled ==> "i18n" in m.config && m.config["i18n"] == YamlText(lang))
      && (lang !in bundled ==> m.config == config)
  {}

  /** A node that says of a kind what the descriptor says, under its ID. */
  ghost predicate SaysKind(node: KindNode, id: string, bk: BootstrapKind) {
    && node.protocol == id && node.api == bk.api && node.hostFunctions == bk.hostFunctions
    && node.evaluator == bk.evaluator && node.attributes == bk.attributes && node.allow == bk.allow
  }

  /** A node that says of an entity what the descriptor says, and nothing more. */
  ghost predicate SaysEntity(node: EntityNode, e: BootstrapEntity)
    requires e.Inline?
  {
    && node.kind == e.kind && node.behaviour == e.behaviour && node.acl == e.acl && node.state == e.state
    && node.parent == None && node.displayLabel == None && node.lifecycle == New
  }

  /** What a build stores and links, field by field: every kind under its own node,
      every inline entity, every entity given as CID as it is, every access list, and
      an empty root access list when the descriptor has none. */
  lemma BuildSays(k: Kubo, cfg: Descriptor, config: map<string, Yaml>, lang: string, bundled: map<string, Cid>)
    requires Stored(k, cfg)
    ensures forall id :: id in cfg.kinds ==>
              var block := KindBlockAt(cfg.kinds, id);
              block.KindBlock? && k.Has(block) && SaysKind(block.kind, id, cfg.kinds[id])
    ensures var m := ManifestOf(k.cidOf, cfg, config, lang, bundled);
      && m.entities.Keys == cfg.entities.Keys && m.acls.Keys == cfg.acls.Keys
      && (forall n :: n in cfg.entities && cfg.entities[n].Prepublished? ==> m.entities[n] == cfg.entities[n].cid)
      && (forall n :: n in cfg.entities && cfg.entities[n].Inline? ==>
            k.GetEntity(m.entities[n]).Some? && SaysEntity(k.GetEntity(m.entities[n]).value, cfg.entities[n]))
      && (forall n :: n in cfg.acls ==> k.GetAcl(m.acls[n]) == Some(cfg.acls[n]))
      && m.acl.Some? && k.GetAcl(m.acl.value) == Some(if cfg.acl.Some? then cfg.acl.value else map[])
  {
    hide AllKinds, ConfigWithLang;
  }

  // ── Publishing ──────────────────────────────────────────────────────────────

  ghost predicate KindsStored(k: Kubo, cfg: Descriptor) {
    forall id :: id in cfg.kinds ==> k.Has(KindBlockAt(cfg.kinds, id))
  }

  ghost predicate EntitiesStored(k: Kubo, cfg: Descriptor) {
    forall n :: n in cfg.entities && cfg.entities[n].Inline? ==> k.Has(EntityBlock(EntityNodeOf(cfg.entities[n])))
  }

  ghost predicate AclsStored(k: Kubo, cfg: Descriptor) {
    forall n :: n in cfg.acls ==> k.Has(AclBlock(cfg.acls[n]))
  }

  /** Everything the manifest of `cfg` links to is in the store, except entities
      the descriptor names by CID. */
  ghost predicate Stored(k: Kubo, cfg: Descriptor) {
    KindsStored(k, cfg) && EntitiesStored(k, cfg) && AclsStored(k, cfg) && k.Has(AclBlock(RootAcl(cfg)))
  }

  /** Kubo takes every block the descriptor asks it to store. */
  ghost predicate AllAccepted(accepts: Block -> bool, cfg: Descriptor) {
    KindsAccepted(accepts, cfg) && EntitiesAccepted(accepts, cfg) && AclsAccepted(accepts, cfg)
    && accepts(AclBlock(RootAcl(cfg)))
  }

  ghost predicate KindsAccepted(accepts: Block -> bool, cfg: Descriptor) {
    forall id :: id in cfg.kinds ==> accepts(KindBlockAt(cfg.kinds, id))
  }

  ghost predicate EntitiesAccepted(accepts: Block -> bool, cfg: Descriptor) {
    forall n :: n in cfg.entities && cfg.entities[n].Inline? ==> accepts(EntityBlock(EntityNodeOf(cfg.entities[n])))
  }

  ghost predicate AclsAccepted(accepts: Block -> bool, cfg: Descriptor) {
    forall n :: n in cfg.acls ==> accepts(AclBlock(cfg.acls[n]))
  }

  /** The first `n` kinds are stored. */
  ghost predicate StoredUpTo(k: Kubo, kinds: map<string, BootstrapKind>, ids: seq<string>, n: nat)
    requires n <= |ids| && forall j :: 0 <= j < |ids| ==> ids[j] in kinds
  {
    forall j :: 0 <= j < n ==> k.Has(KindBlockAt(kinds, ids[j]))
  }

  lemma GrowsTwice(a: Kubo, b: Kubo, c: Kubo)
    requires Grows(a, b) && Grows(b, c)
    ensures Grows(a, c)
  {}

  /** Store the next kind on top of what was stored since `start`. */
  method StoreKind(start: Kubo, k: Kubo, kinds: map<string, BootstrapKind>, ids: seq<string>, i: nat) returns (after: Kubo)
    requires k.Valid() && Grows(start, k) && i < |ids| && forall j :: 0 <= j < |ids| ==> ids[j] in kinds
    requires StoredUpTo(k, kinds, ids, i)
    ensures after == k.Put(KindBlockAt(kinds, ids[i]))
    ensures after.Valid() && Grows(start, after) && after.pins == k.pins && StoredUpTo(after, kinds, ids, i + 1)
  {
    var block := KindBlockAt(kinds, ids[i]);
    PutGrows(k, block);
    after := k.Put(block);
    GrowsTwice(start, k, after);
  }

  ghost predicate AcceptedUpTo(accepts: Block -> bool, kinds: map<string, BootstrapKind>, ids: seq<string>, n: nat)
    requires n <= |ids| && forall j :: 0 <= j < |ids| ==> ids[j] in kinds
  {
    forall j :: 0 <= j < n ==> accepts(KindBlockAt(kinds, ids[j]))
  }

  /** Link one more kind into the tree. */
  method InsertKind(cidOf: Block -> Cid, kinds: map<string, BootstrapKind>, ids: seq<string>, i: nat, tree: Trie.Tree)
    returns (next: Trie.Tree)
    requires i < |ids| && forall j :: 0 <= j < |ids| ==> ids[j] in kinds
    requires tree == KindTreeOf(cidOf, kinds, ids, i)
    ensures next == KindTreeOf(cidOf, kinds, ids, i + 1)
  {
    next := Trie.Insert(tree, Segments(ids[i]), cidOf(KindBlockAt(kinds, ids[i])));
  }

  /** The loop over the kinds, in the order of their IDs. */
  method PublishInOrder(kubo: Kubo, kinds: map<string, BootstrapKind>, ids: seq<string>, accepts: Block -> bool)
    returns (after: Kubo, tree: Option<Trie.Tree>)
    requires kubo.Valid() && forall j :: 0 <= j < |ids| ==> ids[j] in kinds
    ensures after.Valid() && Grows(kubo, after) && after.pins == kubo.pins
    ensures tree.Some? <==> AcceptedUpTo(accepts, kinds, ids, |ids|)
    ensures tree.Some? ==> tree.value == KindTreeOf(kubo.cidOf, kinds, ids, |ids|)
    ensures tree.Some? ==> StoredUpTo(after, kinds, ids, |ids|)
  {
    after := kubo;
    var built: Trie.Tree := map[];
    assert StoredUpTo(kubo, kinds, ids, 0) && Grows(kubo, kubo) && built == KindTreeOf(kubo.cidOf, kinds, ids, 0);
    assert after.cidOf == kubo.cidOf;
    hide StoredUpTo, KindBlockAt, Grows, KindTreeOf;
    for i := 0 to |ids|
      invariant after.Valid() && Grows(kubo, after) && after.pins == kubo.pins
      invariant built == KindTreeOf(kubo.cidOf, kinds, ids, i)
      invariant StoredUpTo(after, kinds, ids, i) && AcceptedUpTo(accepts, kinds, ids, i)
    {
      if !accepts(KindBlockAt(kinds, ids[i])) {
        return after, None;
      }
      after := StoreKind(kubo, after, kinds, ids, i);
      built := InsertKind(kubo.cidOf, kinds, ids, i, built);
    }
    tree := Some(built);
  }

  method PublishKinds(kubo: Kubo, cfg: Descriptor, accepts: Block -> bool)
    returns (after: Kubo, kinds: Option<Trie.Tree>)
    requires kubo.Valid()
    ensures after.Valid() && Grows(kubo, after) && after.pins == kubo.pins
    ensures kinds.Some? <==> KindsAccepted(accepts, cfg)
    ensures kinds.Some? ==> KindsStored(after, cfg) && kinds.value == AllKinds(kubo.cidOf, cfg.kinds)
  {
    var ids := SortedKeys(cfg.kinds.Keys);
    forall id | id in cfg.kinds ensures exists j :: 0 <= j < |ids| && ids[j] == id {
      assert id in ids;
    }
    after, kinds := PublishInOrder(kubo, cfg.kinds, ids, accepts);
  }

  method PublishEntities(kubo: Kubo, cfg: Descriptor, accepts: Block -> bool)
    returns (after: Kubo, entities: Option<map<string, Cid>>)
    requires kubo.Valid()
    ensures after.Valid() && Grows(kubo, after) && after.pins == kubo.pins
    ensures entities.Some? <==> EntitiesAccepted(accepts, cfg)
    ensures entities.Some? ==> EntitiesStored(after, cfg)
    ensures entities.Some? ==> entities.value == map n | n in cfg.entities :: EntityLink(kubo.cidOf, cfg.entities[n])
  {
    after := kubo;
    var links: map<string, Cid> := map[];
    var todo := cfg.entities.Keys;
    while todo != {}
      invariant todo <= cfg.entities.Keys && links.Keys == cfg.entities.Keys - todo
      invariant after.Valid() && Grows(kubo, after) && after.pins == kubo.pins
      invariant forall n :: n in links ==> links[n] == EntityLink(kubo.cidOf, cfg.entities[n])
      invariant forall n :: n in links && cfg.entities[n].Inline? ==>
                  accepts(EntityBlock(EntityNodeOf(cfg.entities[n]))) && after.Has(EntityBlock(EntityNodeOf(cfg.entities[n])))
      decreases todo
    {
      var name :| name in todo;
      match cfg.entities[name] {
        case Prepublished(cid) =>
          links := links[name := cid];
        case Inline(_, _, _, _) =>
          var block := EntityBlock(EntityNodeOf(cfg.entities[name]));
          if !accepts(block) {
            return after, None;
          }
          PutGrows(after, block);
          after := after.Put(block);
          links := links[name := kubo.cidOf(block)];
      }
      todo := todo - {name};
    }
    entities := Some(links);
  }

  /** The named ACLs whose links are made so far. */
  ghost predicate AclsDone(k: Kubo, cfg: Descriptor, accepts: Block -> bool, links: map<string, Cid>)
    requires links.Keys <= cfg.acls.Keys
  {
    forall n :: n in links ==> var block := AclBlock(cfg.acls[n]); links[n] == k.cidOf(block) && accepts(block) && k.Has(block)
  }

  lemma AclsKeepDone(k: Kubo, k': Kubo, cfg: Descriptor, accepts: Block -> bool, links: map<string, Cid>)
    requires links.Keys <= cfg.acls.Keys && Grows(k, k') && AclsDone(k, cfg, accepts, links)
    ensures AclsDone(k', cfg, accepts, links)
  {}

  method PublishAcls(kubo: Kubo, cfg: Descriptor, accepts: Block -> bool)
    returns (after: Kubo, acls: Option<map<string, Cid>>)
    requires kubo.Valid()
    ensures after.Valid() && Grows(kubo, after) && after.pins == kubo.pins
    ensures acls.Some? <==> AclsAccepted(accepts, cfg)
    ensures acls.Some? ==> AclsStored(after, cfg)
    ensures acls.Some? ==> acls.value == map n | n in cfg.acls :: kubo.cidOf(AclBlock(cfg.acls[n]))
  {
    after := kubo;
    var links: map<string, Cid> := map[];
    var todo := cfg.acls.Keys;
    while todo != {}
      invariant todo <= cfg.acls.Keys && links.Keys == cfg.acls.Keys - todo
      invariant after.Valid() && Grows(kubo, after) && after.pins == kubo.pins
      invariant AclsDone(after, cfg, accepts, links)
      decreases todo
    {
      var name :| name in todo;
      var block := AclBlock(cfg.acls[name]);
      if !accepts(block) {
        return after, None;
      }
      PutGrows(after, block);
      GrowsTwice(kubo, after, after.Put(block));
      AclsKeepDone(after, after.Put(block), cfg, accepts, links);
      after := after.Put(block);
      links := links[name := kubo.cidOf(block)];
      todo := todo - {name};
    }
    acls := Some(links);
  }

  /** Everything below the root manifest. */
  method PublishParts(kubo: Kubo, cfg: Descriptor, config: map<string, Yaml>, lang: string,
                      bundled: map<string, Cid>, accepts: Block -> bool)
    returns (after: Kubo, manifest: Option<Manifest>)
    requires kubo.Valid()
    ensures after.Valid() && Grows(kubo, after) && after.pins == kubo.pins
    ensures manifest.Some? <==> AllAccepted(accepts, cfg)
    ensures manifest.Some? ==> Stored(after, cfg) && manifest.value == ManifestOf(kubo.cidOf, cfg, config, lang, bundled)
  {
    var kinds, entities, acls;
    after, kinds := PublishKinds(kubo, cfg, accepts);
    if kinds.None? { return after, None; }
    after, entities := PublishEntities(after, cfg, accepts);
    if entities.None? { return after, None; }
    after, acls := PublishAcls(after, cfg, accepts);
    if acls.None? { return after, None; }
    var rootAcl := AclBlock(RootAcl(cfg));
    if !accepts(rootAcl) { return after, None; }
    PutGrows(after, rootAcl);
    after := after.Put(rootAcl);
    manifest := Some(Manifest(Some(kubo.cidOf(rootAcl)), acls.value, "/ma/runtime/0.1.0", kinds.value,
                              entities.value, bundled, ConfigWithLang(config, lang, bundled)));
  }

  /** Pin the new root: moved from the old one, or, the first time, added. */
  method PinRoot(k: Kubo, oldRoot: Option<Cid>, cid: Cid, pin: PinNet) returns (after: Kubo, ok: bool)
    ensures after == k.(pins := after.pins)
    ensures ok <==> oldRoot.Some? || pin.addOk
    ensures after.pins == match oldRoot
                          case Some(o) => k.PinUpdate(o, cid, pin).0.pins
                          case None => if pin.addOk then k.pins + {cid} else k.pins
  {
    if oldRoot.Some? {
      after := k.PinUpdate(oldRoot.value, cid, pin).0;
      ok := true;
    } else {
      var pinned := k.PinAdd(cid, pin.addOk);
      after, ok := pinned.0, pinned.1;
    }
  }

  lemma StoredGrows(k: Kubo, k': Kubo, cfg: Descriptor)
    requires Stored(k, cfg) && Grows(k, k')
    ensures Stored(k', cfg)
  {}

  /** `accepts` says which blocks Kubo takes during this call, `pin` how the pin
      requests end. Only a first pin that fails makes the build fail. */
  method BuildManifest(kubo: Kubo, cfg: Descriptor, config: map<string, Yaml>, lang: string,
                       bundled: map<string, Cid>, oldRoot: Option<Cid>, accepts: Block -> bool, pin: PinNet)
    returns (after: Kubo, root: Option<Cid>)
    requires kubo.Valid()
    ensures after.Valid() && Grows(kubo, after)
    ensures root.Some? <==> && AllAccepted(accepts, cfg)
                            && accepts(ManifestBlock(ManifestOf(kubo.cidOf, cfg, config, lang, bundled)))
                            && (oldRoot.None? ==> pin.addOk)
    ensures root.Some? ==>
              && root.value == kubo.cidOf(ManifestBlock(ManifestOf(kubo.cidOf, cfg, config, lang, bundled)))
              && Stored(after, cfg)
              && after.GetManifest(root.value) == Some(ManifestOf(kubo.cidOf, cfg, config, lang, bundled))
              && after.pins == match oldRoot
                               case Some(o) => kubo.PinUpdate(o, root.value, pin).0.pins
                               case None => kubo.pins + {root.value}
    ensures root.None? ==> after.pins == kubo.pins
  {
    hide ManifestOf, Stored, AllAccepted;
    var manifest;
    after, manifest := PublishParts(kubo, cfg, config, lang, bundled, accepts);
    if manifest.None? { return after, None; }
    ghost var parts := after;
    var block := ManifestBlock(manifest.value);
    if !accepts(block) { return after, None; }
    PutGrows(after, block);
    after := after.Put(block);
    var cid := kubo.cidOf(block);
    var ok;
    after, ok := PinRoot(after, oldRoot, cid, pin);
    StoredGrows(parts, after, cfg);
    root := if ok then Some(cid) else None;
  }

  // ── Reading back ────────────────────────────────────────────────────────────

  function KindOf(node: KindNode): BootstrapKind {
    BootstrapKind(node.api, node.hostFunctions, node.evaluator, node.attributes, node.allow)
  }

  function InlineOf(node: EntityNode): BootstrapEntity {
    Inline(node.kind, node.behaviour, node.acl, node.state)
  }

  ghost function KindPairs(m: Manifest): seq<(string, Cid)> {
    Lookups(m.kinds, Rendered("", LeafPaths(m.kinds)))
  }

  /** Every link of the manifest leads to a block of the right type. */
  ghost predicate Resolves(k: Kubo, m: Manifest) {
    && (forall i :: 0 <= i < |KindPairs(m)| ==> k.GetKind(KindPairs(m)[i].1).Some?)
    && (forall n :: n in m.entities ==> k.GetEntity(m.entities[n]).Some?)
    && (forall n :: n in m.acls ==> k.GetAcl(m.acls[n]).Some?)
    && (m.acl.Some? ==> k.GetAcl(m.acl.value).Some?)
  }

  /** The kinds read off a listing; a repeated ID keeps its last node. */
  function Collected(k: Kubo, pairs: seq<(string, Cid)>): map<string, BootstrapKind>
    requires forall i :: 0 <= i < |pairs| ==> k.GetKind(pairs[i].1).Some?
    decreases |pairs|
  {
    if pairs == [] then map[] else
      var last := pairs[|pairs| - 1];
      Collected(k, pairs[..|pairs| - 1])[last.0 := KindOf(k.GetKind(last.1).value)]
  }

  ghost predicate Exports(k: Kubo, m: Manifest, d: Descriptor)
    requires Resolves(k, m)
  {
    && d.kinds == Collected(k, KindPairs(m))
    && d.entities == (map n | n in m.entities :: InlineOf(k.GetEntity(m.entities[n]).value))
    && d.acls == (map n | n in m.acls :: k.GetAcl(m.acls[n]).value)
    && d.acl == (if m.acl.Some? then k.GetAcl(m.acl.value) else None)
  }

  method FetchKinds(k: Kubo, pairs: seq<(string, Cid)>) returns (kinds: Option<map<string, BootstrapKind>>)
    ensures kinds.Some? <==> forall i :: 0 <= i < |pairs| ==> k.GetKind(pairs[i].1).Some?
    ensures kinds.Some? ==> kinds.value == Collected(k, pairs)
  {
    var found: map<string, BootstrapKind> := map[];
    for i := 0 to |pairs|
      invariant forall j :: 0 <= j < i ==> k.GetKind(pairs[j].1).Some?
      invariant found == Collected(k, pairs[..i])
    {
      var node := k.GetKind(pairs[i].1);
      if node.None? {
        return None;
      }
      assert pairs[..i + 1][..i] == pairs[..i];
      found := found[pairs[i].0 := KindOf(node.value)];
    }
    assert pairs[..|pairs|] == pairs;
    kinds := Some(found);
  }

  method ReadKinds(k: Kubo, m: Manifest) returns (kinds: Option<map<string, BootstrapKind>>)
    ensures kinds.Some? <==> forall i :: 0 <= i < |KindPairs(m)| ==> k.GetKind(KindPairs(m)[i].1).Some?
    ensures kinds.Some? ==> kinds.value == Collected(k, KindPairs(m))
  {
    var pairs := IterLinks(m.kinds);
    assert pairs == KindPairs(m);
    kinds := FetchKinds(k, pairs);
  }

  method ReadEntities(k: Kubo, m: Manifest) returns (entities: Option<map<string, BootstrapEntity>>)
    ensures entities.Some? <==> forall n :: n in m.entities ==> k.GetEntity(m.entities[n]).Some?
    ensures entities.Some? ==> entities.value == map n | n in m.entities :: InlineOf(k.GetEntity(m.entities[n]).value)
  {
    var found: map<string, BootstrapEntity> := map[];
    var todo := m.entities.Keys;
    while todo != {}
      invariant todo <= m.entities.Keys && found.Keys == m.entities.Keys - todo
      invariant forall n :: n in found ==>
                  k.GetEntity(m.entities[n]).Some? && found[n] == InlineOf(k.GetEntity(m.entities[n]).value)
      decreases todo
    {
      var name :| name in todo;
      var node := k.GetEntity(m.entities[name]);
      if node.None? {
        return None;
      }
      found := found[name := InlineOf(node.value)];
      todo := todo - {name};
    }
    entities := Some(found);
  }

  method ReadAcls(k: Kubo, m: Manifest) returns (acls: Option<map<string, Acl.AclMap>>)
    ensures acls.Some? <==> forall n :: n in m.acls ==> k.GetAcl(m.acls[n]).Some?
    ensures acls.Some? ==> acls.value == map n | n in m.acls :: k.GetAcl(m.acls[n]).value
  {
    var found: map<string, Acl.AclMap> := map[];
    var todo := m.acls.Keys;
    while todo != {}
      invariant todo <= m.acls.Keys && found.Keys == m.acls.Keys - todo
      invariant forall n :: n in found ==> k.GetAcl(m.acls[n]) == Some(found[n])
      decreases todo
    {
      var name :| name in todo;
      var acl := k.GetAcl(m.acls[name]);
      if acl.None? {
        return None;
      }
      found := found[name := acl.value];
      todo := todo - {name};
    }
    acls := Some(found);
  }

  method ExportBootstrap(k: Kubo, root: Cid) returns (d: Option<Descriptor>)
    ensures d.Some? <==> k.GetManifest(root).Some? && Resolves(k, k.GetManifest(root).value)
    ensures d.Some? ==> Exports(k, k.GetManifest(root).value, d.value)
  {
    var manifest := k.GetManifest(root);
    if manifest.None? { return None; }
    var m := manifest.value;
    var kinds := ReadKinds(k, m);
    if kinds.None? { return None; }
    var entities := ReadEntities(k, m);
    if entities.None? { return None; }
    var acls := ReadAcls(k, m);
    if acls.None? { return None; }
    var acl: Option<Acl.AclMap> := None;
    if m.acl.Some? {
      acl := k.GetAcl(m.acl.value);
      if acl.None? { return None; }
    }
    d := Some(Descriptor(kinds.value, acl, entities.value, acls.value));
  }

  /** What an export says of each part, field by field. */
  lemma ExportSays(k: Kubo, m: Manifest, d: Descriptor, n: string)
    requires Resolves(k, m) && Exports(k, m, d)
    ensures d.entities.Keys == m.entities.Keys && d.acls.Keys == m.acls.Keys
    ensures n in m.entities ==>
              var e, node := d.entities[n], k.GetEntity(m.entities[n]).value;
              e.Inline? && e.kind == node.kind && e.behaviour == node.behaviour && e.acl == node.acl && e.state == node.state
    ensures n in m.acls ==> Some(d.acls[n]) == k.GetAcl(m.acls[n])
    ensures d.acl == match m.acl case Some(link) => k.GetAcl(link) case None => None
  {
    hide Collected, KindPairs;
  }
}
