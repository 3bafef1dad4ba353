/** What each request does to the manifest behind the head, said of the manifest's
    own fields (src/crud, src/rpc.rs, src/bootstrap.rs). */
module Edits {
  import opened Text
  import opened Ipld
  import opened Plugins
  import Acl
  import Trie
  import opened ProtocolIds
  import Shutdown
  import opened Runtime
  import opened Head

  /** The map with this one entry set, everything else as it was. */
  ghost predicate Written<V>(before: map<string, V>, after: map<string, V>, key: string, value: V) {
    && key in after && after[key] == value
    && (forall k :: k != key ==> (k in after <==> k in before))
    && (forall k :: k != key && k in after ==> after[k] == before[k])
  }

  /** The map without this entry, everything else as it was. */
  ghost predicate Erased<V>(before: map<string, V>, after: map<string, V>, key: string) {
    && key !in after
    && (forall k :: k != key ==> (k in after <==> k in before))
    && (forall k :: k in after ==> after[k] == before[k])
  }

  /** The manifest before an event and the one after it. */
  ghost predicate Edited(s: State, e: Event, m: Manifest, m': Manifest) {
    HeadManifest(s) == Some(m) && HeadManifest(Step(s, e)) == Some(m')
  }

  lemma CommitLeaves(s: State, e: Edit, net: Net, m: Manifest)
    requires Inv(s) && HeadManifest(s) == Some(m)
    ensures var (t, ok) := CommitCrud(s, e, net);
      && (ok <==> net.getOk && net.putOk)
      && HeadManifest(t) == Some(if ok then ApplyEdit(e, m) else m)
      && (!ok ==> t == s)
  {
    CrudEdits(s, e, net);
    hide CommitCrud, Inv;
  }

  // ── Entities ────────────────────────────────────────────────────────────────

  /** A CRUD delete unregisters in any case; if it is committed, the name is gone
      from the head and every other link is as it was. */
  lemma DeleteUnlinks(s: State, name: string, net: Net, m: Manifest, m': Manifest)
    requires Inv(s) && Edited(s, DeleteEntity(name, net), m, m')
    ensures name !in Step(s, DeleteEntity(name, net)).registry
    ensures net.getOk && net.putOk ==> Erased(m.entities, m'.entities, name) && m' == m.(entities := m'.entities)
    ensures !(net.getOk && net.putOk) ==> m' == m
  {
    CrudEdits(s.(registry := s.registry - {name}), RemoveEntityLink(name), net);
    hide CommitCrud, Inv;
  }

  /** A name an entity may have: no control characters, and none of the runtime's own. */
  predicate UsableName(name: string) {
    && (forall c :: c in name ==> ' ' <= c && !('\U{7F}' <= c <= '\U{9F}'))
    && name != "root" && name != "acl" && name != "scheduler" && name != "logger" && name != "runtime"
  }

  lemma UsableNamesAreAllowed(name: string)
    ensures UsableName(name) <==> AllowedName(name)
  {
    assert forall i :: 0 <= i < |name| ==> name[i] in name;
    assert RESERVED_ENTITY_NAMES == ["root", "acl", "scheduler", "logger", "runtime"];
  }

  /** An upsert links exactly the given node under exactly the given name; it is
      refused for an unusable name and for a node that cannot be read. */
  lemma UpsertLinks(s: State, e: Event, m: Manifest, m': Manifest)
    requires Inv(s) && e.UpsertEntity? && Edited(s, e, m, m')
    ensures var ok := UsableName(e.name) && e.fetchOk && s.kubo.GetEntity(e.cid).Some? && e.net.getOk && e.net.putOk;
      && (ok ==> Written(m.entities, m'.entities, e.name, e.cid) && m' == m.(entities := m'.entities))
      && (!ok ==> m' == m && Step(s, e).registry == s.registry)
  {
    UpsertStep(s, e);
    CommitLeaves(s, SetEntityLink(e.name, e.cid), e.net, m);
    hide Step, CommitCrud, Inv, UsableName;
  }

  lemma UpsertStep(s: State, e: Event)
    requires e.UpsertEntity?
    ensures var t := CommitCrud(s, SetEntityLink(e.name, e.cid), e.net);
      if UsableName(e.name) && e.fetchOk && s.kubo.GetEntity(e.cid).Some?
      then Step(s, e).head == t.0.head && Step(s, e).kubo == t.0.kubo && (!t.1 ==> Step(s, e) == t.0)
      else Step(s, e) == s
  {
    UsableNamesAreAllowed(e.name);
    hide CommitCrud, AllowedName, UsableName, KindFor, LoadPlugin;
  }

  /** Changing an entity's ACL field stores a node that differs in that field only,
      and links it; it is refused for an ACL the manifest does not name. */
  lemma AclFieldLinks(s: State, e: Event, m: Manifest, m': Manifest)
    requires Inv(s) && e.SetEntityAcl? && Edited(s, e, m, m')
    ensures var ok := && e.readOk && e.nodePutOk && e.net.getOk && e.net.putOk
                      && (e.newAcl.Some? ==> e.newAcl.value in m.acls)
                      && e.name in m.entities && s.kubo.GetEntity(m.entities[e.name]).Some?;
      && (ok ==>
            && e.name in m'.entities && Written(m.entities, m'.entities, e.name, m'.entities[e.name])
            && m' == m.(entities := m'.entities)
            && Step(s, e).kubo.GetEntity(m'.entities[e.name])
               == Some(s.kubo.GetEntity(m.entities[e.name]).value.(acl := match e.newAcl case Some(a) => a case None => "")))
      && (!ok ==> m' == m)
  {
    var node := AclNode(s, e.name, e.newAcl, e.readOk, e.nodePutOk);
    AclNodeIs(s, e, m);
    hide AclNode;
    if node.Some? {
      AclNodeLinked(s, e, m, m', node.value);
    }
  }

  lemma AclNodeIs(s: State, e: Event, m: Manifest)
    requires e.SetEntityAcl? && HeadManifest(s) == Some(m)
    ensures var ok := && e.readOk && e.nodePutOk && (e.newAcl.Some? ==> e.newAcl.value in m.acls)
                      && e.name in m.entities && s.kubo.GetEntity(m.entities[e.name]).Some?;
      AclNode(s, e.name, e.newAcl, e.readOk, e.nodePutOk)
      == if ok then Some(s.kubo.GetEntity(m.entities[e.name]).value.(acl := match e.newAcl case Some(a) => a case None => ""))
         else None
  {}

  lemma AclNodeLinked(s: State, e: Event, m: Manifest, m': Manifest, node: EntityNode)
    requires Inv(s) && e.SetEntityAcl? && Edited(s, e, m, m')
    requires AclNode(s, e.name, e.newAcl, e.readOk, e.nodePutOk) == Some(node)
    ensures if e.net.getOk && e.net.putOk
            then e.name in m'.entities && Written(m.entities, m'.entities, e.name, m'.entities[e.name])
                 && m' == m.(entities := m'.entities) && Step(s, e).kubo.GetEntity(m'.entities[e.name]) == Some(node)
            else m' == m
  {
    var block := EntityBlock(node);
    var r := s.(kubo := s.kubo.Put(block));
    var link := SetEntityLink(e.name, s.kubo.cidOf(block));
    assert Step(s, e) == CommitCrud(r, link, e.net).0;
    PutMovesNothing(s, block);
    PutGrows(s.kubo, block);
    CrudEdits(r, link, e.net);
    hide Step, CommitCrud, Inv, AclNode, Kubo.Put;
  }

  // ── Access lists, kinds and configuration ───────────────────────────────────

  /** A bare version-1 identifier is longer than ten characters and begins with `b`. */
  predicate BareCid(s: string) { |s| >= 11 && s[..1] == "b" }

  lemma AclLinks(s: State, e: Event, m: Manifest, m': Manifest)
    requires Inv(s) && e.SetAcl? && Edited(s, e, m, m')
    ensures var ok := BareCid(e.cid) && e.net.getOk && e.net.putOk;
      && (ok ==> Written(m.acls, m'.acls, e.name, e.cid) && m' == m.(acls := m'.acls))
      && (!ok ==> Step(s, e) == s)
  {
    AclStep(s, e);
    CommitLeaves(s, SetAclLink(e.name, e.cid), e.net, m);
    hide Step, CommitCrud, Inv, BareCid;
  }

  lemma AclStep(s: State, e: Event)
    requires e.SetAcl?
    ensures var t := CommitCrud(s, SetAclLink(e.name, e.cid), e.net);
      && (!BareCid(e.cid) || !t.1 ==> Step(s, e) == if BareCid(e.cid) then t.0 else s)
      && (BareCid(e.cid) ==> Step(s, e).head == t.0.head && Step(s, e).kubo == t.0.kubo)
  {
    hide CommitCrud, LoadAcl;
  }

  lemma AclUnlinks(s: State, e: Event, m: Manifest, m': Manifest)
    requires Inv(s) && e.DeleteAcl? && Edited(s, e, m, m')
    ensures var ok := e.net.getOk && e.net.putOk;
      && (ok ==> Erased(m.acls, m'.acls, e.name) && m' == m.(acls := m'.acls))
      && (!ok ==> Step(s, e) == s)
  {
    CommitLeaves(s, RemoveAclLink(e.name), e.net, m);
    hide CommitCrud, Inv;
  }

  lemma RootAclLinks(s: State, e: Event, m: Manifest, m': Manifest)
    requires Inv(s) && e.SetRootAcl? && Edited(s, e, m, m')
    ensures var ok := BareCid(e.cid) && e.fetchOk && s.kubo.GetAcl(e.cid).Some? && e.net.getOk && e.net.putOk;
      && (ok ==> m' == m.(acl := Some(e.cid)))
      && (!ok ==> Step(s, e) == s)
  {
    CrudEdits(s, SetRootAclLink(e.cid), e.net);
    hide CommitCrud, Inv;
  }

  /** Kinds change as the flat map of paths does, and nothing else changes. */
  lemma KindLinks(s: State, e: Event, m: Manifest, m': Manifest)
    requires Inv(s) && e.EditKind? && Edited(s, e, m, m')
    ensures var ok := (e.link.Some? ==> BareCid(e.link.value)) && e.net.getOk && e.net.putOk;
      && (ok ==> m' == m.(kinds := m'.kinds)
                 && Trie.View(m'.kinds) == match e.link
                                           case Some(cid) => Trie.Put(Trie.View(m.kinds), Segments(e.protocol), cid)
                                           case None => Trie.Drop(Trie.View(m.kinds), Segments(e.protocol)))
      && (!ok ==> Step(s, e) == s)
  {
    var edit := if e.link.Some? then SetKind(e.protocol, e.link.value) else RemoveKind(e.protocol);
    EditKinds(m, e.protocol, e.link);
    KindStep(s, e, edit);
    CommitLeaves(s, edit, e.net, m);
    hide Step, CommitCrud, Inv, ApplyEdit, HeadManifest, Trie.View, Trie.Put, Trie.Drop, Segments;
  }

  lemma KindStep(s: State, e: Event, edit: Edit)
    requires e.EditKind? && edit == if e.link.Some? then SetKind(e.protocol, e.link.value) else RemoveKind(e.protocol)
    ensures Step(s, e) == if e.link.Some? && !BareCid(e.link.value) then s else CommitCrud(s, edit, e.net).0
  {
    hide CommitCrud;
  }

  lemma EditKinds(m: Manifest, protocol: string, link: Option<Cid>)
    ensures var m' := ApplyEdit(if link.Some? then SetKind(protocol, link.value) else RemoveKind(protocol), m);
      && m' == m.(kinds := m'.kinds)
      && Trie.View(m'.kinds) == match link
                                case Some(cid) => Trie.Put(Trie.View(m.kinds), Segments(protocol), cid)
                                case None => Trie.Drop(Trie.View(m.kinds), Segments(protocol))
  {
    match link {
      case Some(cid) => Trie.InsertRefines(m.kinds, Segments(protocol), cid);
      case None => Trie.RemoveRefines(m.kinds, Segments(protocol));
    }
  }

  predicate SecretOrOwn(key: string) {
    || (|key| >= 6 && key[..6] == "secret") || key == "slug" || key == "config_path"
  }

  predicate DaemonSetting(key: string) {
    || key == "kubo_rpc_url" || key == "kubo_key_alias" || key == "log_level" || key == "log_level_stdout" || key == "log_file"
    || key == "did_resolver_positive_ttl_secs" || key == "did_resolver_negative_ttl_secs"
  }

  predicate ManifestSetting(key: string) {
    || key == "owners" || key == "i18n" || key == "status_cors_allowed_origins"
    || key == "did_document_publishing_interval_secs" || key == "did_document_publishing_timeout_secs"
    || key == "did_document_publishing_lifetime_hours" || key == "ipns_publish_lifetime_hours"
    || key == "ipns_publish_resolve" || key == "ipns_publish_allow_offline"
  }

  lemma SettingsAreTabled(key: string)
    ensures DaemonSetting(key) <==> key in DAEMON_CONFIG_KEYS
    ensures ManifestSetting(key) <==> key in MANIFEST_CONFIG_KEYS
    ensures SecretOrOwn(key) <==> IsProtected(key)
  {
    if key in PROTECTED_CONFIG_KEYS {
      assert "secret_bundle"[..6] == "secret" && "secret_bundle_passphrase"[..6] == "secret";
    }
  }

  /** A setting is written, or deleted, alone; secrets and the daemon's own settings
      never reach the manifest, and no unknown key is ever written. */
  lemma ConfigWrites(s: State, e: Event, m: Manifest, m': Manifest)
    requires Inv(s) && e.EditConfig? && Edited(s, e, m, m')
    ensures var ok := && !SecretOrOwn(e.key) && !DaemonSetting(e.key) && (e.value.Some? ==> ManifestSetting(e.key))
                      && e.net.getOk && e.net.putOk;
      && (ok ==> m' == m.(config := m'.config)
                 && match e.value
                    case Some(v) => Written(m.config, m'.config, e.key, v)
                    case None => Erased(m.config, m'.config, e.key))
      && (!ok ==> Step(s, e) == s)
  {
    SettingsAreTabled(e.key);
    EditConfigs(m, e.key, e.value);
    CommitLeaves(s, ConfigEdit(e.key, e.value), e.net, m);
    hide CommitCrud, Inv, ApplyEdit, Written, Erased, IsProtected, SecretOrOwn, DaemonSetting, ManifestSetting,
         DAEMON_CONFIG_KEYS, MANIFEST_CONFIG_KEYS;
  }

  lemma EditConfigs(m: Manifest, key: string, value: Option<Yaml>)
    ensures var m' := ApplyEdit(ConfigEdit(key, value), m);
      && m' == m.(config := m'.config)
      && match value
         case Some(v) => Written(m.config, m'.config, key, v)
         case None => Erased(m.config, m'.config, key)
  {}

  // ── The shutdown save ───────────────────────────────────────────────────────

  /** It publishes exactly the saved manifest, when anything is registered. */
  lemma ShutdownPublishes(s: State, e: Event, m: Manifest, m': Manifest)
    requires Inv(s) && e.ShutdownSave? && Edited(s, e, m, m')
    ensures var ok := |s.registry| > 0 && e.net.getOk && e.net.putOk;
      m' == if ok then Shutdown.SaveEach(s.kubo, m, s.registry, e.order, e.faults).1 else m
  {
    if s.registry != map[] && e.net.getOk {
      var (k, saved) := Shutdown.SaveEach(s.kubo, m, s.registry, e.order, e.faults);
      Shutdown.SaveEachGrows(s.kubo, m, s.registry, e.order, e.faults);
      CommitEdits(s.(kubo := k), SetEntityLinks(saved.entities), e.net);
    }
    hide Commit, Inv;
    assert s.registry == map[] <==> |s.registry| == 0;
  }

  // ── Runs ────────────────────────────────────────────────────────────────────

  /** The entity links of a manifest under committed edits, as a plain map. */
  ghost function FoldEntities(v: map<string, Cid>, mvs: seq<Move>): map<string, Cid>
    decreases |mvs|
  {
    if mvs == [] then v else
      var before := FoldEntities(v, mvs[..|mvs| - 1]);
      match mvs[|mvs| - 1].edit
      case SetEntityLink(name, cid) => before[name := cid]
      case RemoveEntityLink(name) => map n | n in before && n != name :: before[n]
      case SetEntityLinks(links) => links
      case _ => before
  }

  lemma {:induction false} EditsFoldEntities(m: Manifest, mvs: seq<Move>)
    ensures FoldEdits(m, mvs).entities == FoldEntities(m.entities, mvs)
    decreases |mvs|
  {
    if mvs != [] {
      EditsFoldEntities(m, mvs[..|mvs| - 1]);
      EditEntities(FoldEdits(m, mvs[..|mvs| - 1]), mvs[|mvs| - 1].edit);
      hide ApplyEdit;
    }
  }

  lemma EditEntities(m: Manifest, e: Edit)
    ensures ApplyEdit(e, m).entities == match e
      case SetEntityLink(name, cid) => m.entities[name := cid]
      case RemoveEntityLink(name) => map n | n in m.entities && n != name :: m.entities[n]
      case SetEntityLinks(links) => links
      case _ => m.entities
  {}

  /** After any run the head's entities are the starting ones under the committed
      links and unlinks. */
  lemma RunKeepsEntities(s: State, es: seq<Event>)
    requires Inv(s) && s.head.Some?
    ensures HeadManifest(Run(s, es)).Some?
    ensures HeadManifest(Run(s, es)).value.entities == FoldEntities(HeadManifest(s).value.entities, RunMoves(s, es))
  {
    HeadIsFoldOfEdits(s, es);
    EditsFoldEntities(HeadManifest(s).value, RunMoves(s, es));
  }
}
