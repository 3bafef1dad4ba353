/** The running daemon's shared state and the handlers that change it
    (src/crud, src/rpc.rs, src/bootstrap.rs, src/main.rs). The event loop runs one
    handler at a time; every outside call may fail, and its outcome is part of the
    event. Requests are taken after their access check. */
module Runtime {
  import opened Text
  import opened Ipld
  import opened Plugins
  import Acl
  import Trie
  import opened ProtocolIds
  import Shutdown

  datatype State = State(
    kubo: Kubo,
    head: Option<Cid>,
    registry: Registry,
    kinds: map<string, KindNode>,
    cache: map<string, Acl.AclMap>,
    rootAcl: Acl.AclMap,
    owners: seq<string>)

  function HeadManifest(s: State): Option<Manifest> {
    if s.head.Some? then s.kubo.GetManifest(s.head.value) else None
  }

  function CacheKey(name: string): string { "acls." + name }

  // ── Edits of the manifest ───────────────────────────────────────────────────

  datatype Edit =
    | SetRootAclLink(cid: Cid)
    | SetAclLink(name: string, cid: Cid)
    | RemoveAclLink(name: string)
    | SetKind(protocol: string, cid: Cid)
    | RemoveKind(protocol: string)
    | SetEntityLink(name: string, cid: Cid)
    | RemoveEntityLink(name: string)
    | SetConfig(key: string, value: Yaml)
    | RemoveConfig(key: string)
    | SetEntityLinks(links: map<string, Cid>)

  function ApplyEdit(e: Edit, m: Manifest): Manifest {
    match e
    case SetRootAclLink(cid) => m.(acl := Some(cid))
    case SetAclLink(name, cid) => m.(acls := m.acls[name := cid])
    case RemoveAclLink(name) => m.(acls := m.acls - {name})
    case SetKind(protocol, cid) => m.(kinds := Trie.Insert(m.kinds, Segments(protocol), cid))
    case RemoveKind(protocol) => m.(kinds := Trie.Remove(m.kinds, Segments(protocol)).0)
    case SetEntityLink(name, cid) => m.(entities := m.entities[name := cid])
    case RemoveEntityLink(name) => m.(entities := m.entities - {name})
    case SetConfig(key, value) => m.(config := m.config[key := value])
    case RemoveConfig(key) => m.(config := m.config - {key})
    case SetEntityLinks(links) => m.(entities := links)
  }

  /** Whether the head is fetched, the new manifest stored, and the pin moved. */
  datatype Net = Net(getOk: bool, putOk: bool, pin: PinNet)

  /** Fetch the head, edit it, store the result, move the pin, move the head. A
      failed pin is only logged. */
  function Commit(s: State, e: Edit, net: Net): (State, bool) {
    if HeadManifest(s).None? || !net.getOk || !net.putOk then (s, false)
    else
      var block := ManifestBlock(ApplyEdit(e, HeadManifest(s).value));
      var cid := s.kubo.cidOf(block);
      (s.(kubo := s.kubo.Put(block).PinUpdate(s.head.value, cid, net.pin).0, head := Some(cid)), true)
  }

  /** The texts of a list; anything else in it is passed over. */
  function Texts(items: seq<Yaml>): seq<string> {
    if items == [] then []
    else (if items[0].YamlText? then [items[0].text] else []) + Texts(items[1..])
  }

  /** The texts come out in order, each once for each time it is listed. */
  lemma {:induction false} TextsConcat(a: seq<Yaml>, b: seq<Yaml>)
    ensures Texts(a + b) == Texts(a) + Texts(b)
    ensures Texts([]) == []
    ensures forall text :: Texts([YamlText(text)]) == [text]
    ensures forall item: Yaml :: !item.YamlText? ==> Texts([item]) == []
    decreases |a|
  {
    assert forall item: Yaml :: [item][1..] == [];
    if a == [] {
      assert a + b == b;
    } else {
      assert (a + b)[1..] == a[1..] + b;
      TextsConcat(a[1..], b);
    }
  }

  /** The owner list of a manifest, if it holds a list at all. */
  function OwnersIn(m: Manifest): Option<seq<string>> {
    if "owners" in m.config && m.config["owners"].YamlSeq? then Some(Texts(m.config["owners"].items)) else None
  }

  function OwnersAfter(owners: seq<string>, m: Manifest): seq<string> {
    match OwnersIn(m) case Some(list) => list case None => owners
  }

  /** A commit on behalf of a structured-data request also takes over the owner
      list of the new manifest, whatever the edit was. */
  function CommitCrud(s: State, e: Edit, net: Net): (State, bool) {
    var (t, ok) := Commit(s, e, net);
    (if ok then t.(owners := OwnersAfter(s.owners, ApplyEdit(e, HeadManifest(s).value))) else t, ok)
  }

  // ── Handlers ────────────────────────────────────────────────────────────────

  /** A bare CIDv1 string. */
  predicate IsCidV1(s: string) { |s| > 10 && s[0] == 'b' }

  predicate IsControl(c: char) { c < ' ' || '\U{7F}' <= c <= '\U{9F}' }

  const RESERVED_ENTITY_NAMES: seq<string> := ["root", "acl", "scheduler", "logger", "runtime"]

  predicate AllowedName(name: string) {
    (forall i :: 0 <= i < |name| ==> !IsControl(name[i])) && name !in RESERVED_ENTITY_NAMES
  }

  /** An ACL document as it is cached: fetched, with the owners entry added. */
  function LoadAcl(k: Kubo, cid: Cid, fetchOk: bool): Option<Acl.AclMap> {
    if !fetchOk then None
    else match k.GetAcl(cid)
      case Some(acl) => Some(Acl.InjectOwners(acl))
      case None => None
  }

  function OnEditKind(s: State, protocol: string, link: Option<Cid>, net: Net): State {
    match link
    case Some(cid) => if IsCidV1(cid) then CommitCrud(s, SetKind(protocol, cid), net).0 else s
    case None => CommitCrud(s, RemoveKind(protocol), net).0
  }

  /** Settings of the daemon itself, kept in its own file. */
  const DAEMON_CONFIG_KEYS: seq<string> :=
    ["kubo_rpc_url", "kubo_key_alias", "log_level", "log_level_stdout",
     "did_resolver_positive_ttl_secs", "did_resolver_negative_ttl_secs", "log_file"]

  /** Settings that may be written to the manifest. */
  const MANIFEST_CONFIG_KEYS: seq<string> :=
    ["owners", "i18n", "did_document_publishing_interval_secs", "did_document_publishing_timeout_secs",
     "did_document_publishing_lifetime_hours", "ipns_publish_lifetime_hours", "ipns_publish_resolve",
     "ipns_publish_allow_offline", "status_cors_allowed_origins"]

  const PROTECTED_CONFIG_KEYS: seq<string> := ["slug", "secret_bundle", "secret_bundle_passphrase", "config_path"]

  predicate IsProtected(key: string) { key in PROTECTED_CONFIG_KEYS || "secret" <= key }

  /** Only known keys may be set; any key that is neither protected nor a daemon
      setting may be deleted. */
  predicate ReachesManifest(key: string, value: Option<Yaml>) {
    !IsProtected(key) && key !in DAEMON_CONFIG_KEYS && (value.Some? ==> key in MANIFEST_CONFIG_KEYS)
  }

  function ConfigEdit(key: string, value: Option<Yaml>): Edit {
    match value case Some(v) => SetConfig(key, v) case None => RemoveConfig(key)
  }

  function OnEditConfig(s: State, key: string, value: Option<Yaml>, net: Net): State {
    if ReachesManifest(key, value) then CommitCrud(s, ConfigEdit(key, value), net).0 else s
  }

  function OnSetRootAcl(s: State, cid: Cid, fetchOk: bool, net: Net): State {
    var doc := LoadAcl(s.kubo, cid, fetchOk);
    if !IsCidV1(cid) || doc.None? then s
    else
      var (t, ok) := CommitCrud(s, SetRootAclLink(cid), net);
      if ok then t.(rootAcl := doc.value) else t
  }

  function OnSetAcl(s: State, name: string, cid: Cid, fetchOk: bool, net: Net): State {
    if !IsCidV1(cid) then s
    else
      var (t, ok) := CommitCrud(s, SetAclLink(name, cid), net);
      var doc := LoadAcl(t.kubo, cid, fetchOk);
      if ok && doc.Some? then t.(cache := t.cache[CacheKey(name) := doc.value]) else t
  }

  function OnDeleteAcl(s: State, name: string, net: Net): State {
    var (t, ok) := CommitCrud(s, RemoveAclLink(name), net);
    if ok then t.(cache := t.cache - {CacheKey(name)}) else t
  }

  /** The kind node an upsert loads with: from the registry of kinds, otherwise
      through the head manifest. */
  function KindFor(s: State, kind: string, lookupOk: bool): Option<KindNode> {
    if kind in s.kinds then Some(s.kinds[kind])
    else if !lookupOk || HeadManifest(s).None? then None
    else match Trie.Get(HeadManifest(s).value.kinds, Segments(kind))
      case Some(link) => s.kubo.GetKind(link)
      case None => None
  }

  function RegisterPlugin(s: State, name: string, node: EntityNode, lookupOk: bool, wasm: Wasm): State {
    match KindFor(s, node.kind, lookupOk)
    case None => s
    case Some(kind) =>
      match LoadPlugin(name, node, kind, wasm)
      case Some(loaded) => s.(registry := s.registry[name := loaded.0])
      case None => s
  }

  function OnUpsertEntity(s: State, name: string, cid: Cid, fetchOk: bool, net: Net, lookupOk: bool, wasm: Wasm): State {
    var node := s.kubo.GetEntity(cid);
    if !AllowedName(name) || !fetchOk || node.None? then s
    else
      var (t, ok) := CommitCrud(s, SetEntityLink(name, cid), net);
      if ok then RegisterPlugin(t, name, node.value, lookupOk, wasm) else t
  }

  function OnDeleteEntity(s: State, name: string, net: Net): State {
    CommitCrud(s.(registry := s.registry - {name}), RemoveEntityLink(name), net).0
  }

  /** The node of an entity the head names under a new ACL name, once it is stored. */
  function AclNode(s: State, name: string, acl: Option<string>, readOk: bool, nodePutOk: bool): Option<EntityNode> {
    if HeadManifest(s).None? || !readOk then None
    else
      var m := HeadManifest(s).value;
      if (acl.Some? && acl.value !in m.acls) || name !in m.entities || s.kubo.GetEntity(m.entities[name]).None? || !nodePutOk
      then None
      else Some(s.kubo.GetEntity(m.entities[name]).value.(acl := if acl.Some? then acl.value else ""))
  }

  /** Store that node, then link it. */
  function OnSetEntityAcl(s: State, name: string, acl: Option<string>, readOk: bool, nodePutOk: bool, net: Net): State {
    match AclNode(s, name, acl, readOk, nodePutOk)
    case None => s
    case Some(node) =>
      CommitCrud(s.(kubo := s.kubo.Put(EntityBlock(node))), SetEntityLink(name, s.kubo.cidOf(EntityBlock(node))), net).0
  }

  // ── Requests queued by a plugin ─────────────────────────────────────────────

  /** One queued creation and how its outside calls end. */
  datatype Create = Create(fragment: string, kindProtocol: string, behaviour: Cid, wasm: Wasm, nodePutOk: bool, net: Net)

  function ChildNode(entity: Plugin, c: Create): EntityNode {
    EntityNode(c.kindProtocol, Some(c.behaviour), entity.acl, None, Some(entity.fragment), None, New)
  }

  function PersistNewEntity(s: State, fragment: string, node: EntityNode, nodePutOk: bool, net: Net): State {
    if HeadManifest(s).None? || !net.getOk || !nodePutOk then s
    else Commit(s.(kubo := s.kubo.Put(EntityBlock(node))), SetEntityLink(fragment, s.kubo.cidOf(EntityBlock(node))), net).0
  }

  function CreateOne(s: State, entity: Plugin, c: Create): State {
    if c.kindProtocol !in s.kinds then s
    else
      match LoadPlugin(c.fragment, ChildNode(entity, c), s.kinds[c.kindProtocol], c.wasm)
      case Some((plugin, Running)) =>
        PersistNewEntity(s.(registry := s.registry[c.fragment := plugin]), c.fragment,
                         ChildNode(entity, c).(lifecycle := Running), c.nodePutOk, c.net)
      case _ => s
  }

  predicate HasChildren(registry: Registry, fragment: string) {
    exists n :: n in registry && registry[n].parent == Some(fragment)
  }

  predicate MayDelete(registry: Registry, entity: Plugin, target: string) {
    && target in registry
    && (registry[target].parent == Some(entity.fragment) || target == entity.fragment)
    && !HasChildren(registry, target)
  }

  function DeleteOne(s: State, entity: Plugin, target: string): State {
    if MayDelete(s.registry, entity, target) then s.(registry := s.registry - {target}) else s
  }

  function CreateEach(s: State, entity: Plugin, creates: seq<Create>): State
    decreases |creates|
  {
    if creates == [] then s else CreateOne(CreateEach(s, entity, creates[..|creates| - 1]), entity, creates[|creates| - 1])
  }

  function DeleteEach(s: State, entity: Plugin, deletes: seq<string>): State
    decreases |deletes|
  {
    if deletes == [] then s else DeleteOne(DeleteEach(s, entity, deletes[..|deletes| - 1]), entity, deletes[|deletes| - 1])
  }

  /** After a plugin call: all its creations, then all its deletions. A message to
      an unknown fragment does nothing. */
  function OnDispatch(s: State, caller: string, creates: seq<Create>, deletes: seq<string>): State {
    if caller !in s.registry then s
    else
      var entity := s.registry[caller];
      DeleteEach(CreateEach(s, entity, creates), entity, deletes)
  }

  /** Only while nobody owns the runtime. */
  function OnClaim(s: State, owner: string): State {
    if s.owners != [] then s else s.(owners := [owner], rootAcl := Acl.WithOwners(s.rootAcl, {owner}))
  }

  // ── Shutdown ────────────────────────────────────────────────────────────────

  /** `order` is how the registry happens to be walked. */
  function OnShutdown(s: State, order: seq<string>, f: Shutdown.Faults, net: Net): State {
    if HeadManifest(s).None? || s.registry == map[] || !net.getOk then s
    else
      var (k, m) := Shutdown.SaveEach(s.kubo, HeadManifest(s).value, s.registry, order, f);
      Commit(s.(kubo := k), SetEntityLinks(m.entities), net).0
  }

  // ── Events and runs ─────────────────────────────────────────────────────────

  datatype Event =
    | EditKind(protocol: string, link: Option<Cid>, net: Net)
    | EditConfig(key: string, value: Option<Yaml>, net: Net)
    | SetRootAcl(cid: Cid, fetchOk: bool, net: Net)
    | SetAcl(name: string, cid: Cid, fetchOk: bool, net: Net)
    | DeleteAcl(name: string, net: Net)
    | UpsertEntity(name: string, cid: Cid, fetchOk: bool, net: Net, lookupOk: bool, wasm: Wasm)
    | DeleteEntity(name: string, net: Net)
    | SetEntityAcl(name: string, newAcl: Option<string>, readOk: bool, nodePutOk: bool, net: Net)
    | Dispatch(caller: string, creates: seq<Create>, deletes: seq<string>)
    | ShutdownSave(order: seq<string>, faults: Shutdown.Faults, net: Net)
    | Claimed(owner: string)
    | Published(block: Block)  // somebody else stores a block

  function Step(s: State, e: Event): State {
    match e
    case EditKind(protocol, link, net) => OnEditKind(s, protocol, link, net)
    case EditConfig(key, value, net) => OnEditConfig(s, key, value, net)
    case SetRootAcl(cid, fetchOk, net) => OnSetRootAcl(s, cid, fetchOk, net)
    case SetAcl(name, cid, fetchOk, net) => OnSetAcl(s, name, cid, fetchOk, net)
    case DeleteAcl(name, net) => OnDeleteAcl(s, name, net)
    case UpsertEntity(name, cid, fetchOk, net, lookupOk, wasm) => OnUpsertEntity(s, name, cid, fetchOk, net, lookupOk, wasm)
    case DeleteEntity(name, net) => OnDeleteEntity(s, name, net)
    case SetEntityAcl(name, acl, readOk, nodePutOk, net) => OnSetEntityAcl(s, name, acl, readOk, nodePutOk, net)
    case Dispatch(caller, creates, deletes) => OnDispatch(s, caller, creates, deletes)
    case ShutdownSave(order, f, net) => OnShutdown(s, order, f, net)
    case Claimed(owner) => OnClaim(s, owner)
    case Published(block) => s.(kubo := s.kubo.Put(block))
  }

  function Run(s: State, es: seq<Event>): State
    decreases |es|
  {
    if es == [] then s else Step(Run(s, es[..|es| - 1]), es[|es| - 1])
  }

  // ── What an event can change ────────────────────────────────────────────────

  lemma CrudFrame(s: State, e: Edit, net: Net)
    ensures var t := CommitCrud(s, e, net).0; t == s.(kubo := t.kubo, head := t.head, owners := t.owners)
  {}

  lemma {:induction false} CreateEachFrame(s: State, entity: Plugin, creates: seq<Create>)
    ensures var t := CreateEach(s, entity, creates); t == s.(kubo := t.kubo, head := t.head, registry := t.registry)
    decreases |creates|
  {
    if creates != [] {
      CreateEachFrame(s, entity, creates[..|creates| - 1]);
    }
  }

  lemma {:induction false} DeleteEachFrame(s: State, entity: Plugin, deletes: seq<string>)
    ensures var t := DeleteEach(s, entity, deletes); t == s.(registry := t.registry)
    decreases |deletes|
  {
    if deletes != [] {
      DeleteEachFrame(s, entity, deletes[..|deletes| - 1]);
    }
  }

  /** The parts of the state that may differ after an event. */
  ghost predicate Frame(s: State, e: Event, t: State) {
    match e
    case EditKind(_, _, _) => t == s.(kubo := t.kubo, head := t.head, owners := t.owners)
    case EditConfig(_, _, _) => t == s.(kubo := t.kubo, head := t.head, owners := t.owners)
    case SetEntityAcl(_, _, _, _, _) => t == s.(kubo := t.kubo, head := t.head, owners := t.owners)
    case SetRootAcl(_, _, _) => t == s.(kubo := t.kubo, head := t.head, owners := t.owners, rootAcl := t.rootAcl)
    case SetAcl(_, _, _, _) => t == s.(kubo := t.kubo, head := t.head, owners := t.owners, cache := t.cache)
    case DeleteAcl(_, _) => t == s.(kubo := t.kubo, head := t.head, owners := t.owners, cache := t.cache)
    case UpsertEntity(_, _, _, _, _, _) => t == s.(kubo := t.kubo, head := t.head, owners := t.owners, registry := t.registry)
    case DeleteEntity(_, _) => t == s.(kubo := t.kubo, head := t.head, owners := t.owners, registry := t.registry)
    case Dispatch(_, _, _) => t == s.(kubo := t.kubo, head := t.head, registry := t.registry)
    case ShutdownSave(_, _, _) => t == s.(kubo := t.kubo, head := t.head)
    case Claimed(_) => t == s.(owners := t.owners, rootAcl := t.rootAcl)
    case Published(_) => t == s.(kubo := t.kubo)
  }

  lemma EventFrame(s: State, e: Event)
    ensures Frame(s, e, Step(s, e))
  {
    hide Frame;
    match e {
      case EditKind(_, _, _) => KindFrame(s, e);
      case EditConfig(_, _, _) => ConfigFrame(s, e);
      case SetRootAcl(_, _, _) => AclFrame(s, e);
      case SetAcl(_, _, _, _) => AclFrame(s, e);
      case DeleteAcl(_, _) => AclFrame(s, e);
      case UpsertEntity(_, _, _, _, _, _) => EntityFrame(s, e);
      case DeleteEntity(_, _) => EntityFrame(s, e);
      case SetEntityAcl(_, _, _, _, _) => EntityAclFrame(s, e);
      case Dispatch(_, _, _) => DispatchFrame(s, e);
      case _ => OtherFrame(s, e);
    }
  }

  lemma ConfigFrame(s: State, e: Event)
    requires e.EditConfig?
    ensures Frame(s, e, Step(s, e))
  {
    CrudFrame(s, ConfigEdit(e.key, e.value), e.net);
    hide CommitCrud;
  }

  lemma AclFrame(s: State, e: Event)
    requires e.SetRootAcl? || e.SetAcl? || e.DeleteAcl?
    ensures Frame(s, e, Step(s, e))
  {
    CrudFrame(s, match e
                 case SetRootAcl(cid, _, _) => SetRootAclLink(cid)
                 case SetAcl(name, cid, _, _) => SetAclLink(name, cid)
                 case DeleteAcl(name, _) => RemoveAclLink(name), e.net);
    hide CommitCrud;
  }

  lemma EntityFrame(s: State, e: Event)
    requires e.UpsertEntity? || e.DeleteEntity?
    ensures Frame(s, e, Step(s, e))
  {
    if e.UpsertEntity? {
      CrudFrame(s, SetEntityLink(e.name, e.cid), e.net);
    } else {
      CrudFrame(s.(registry := s.registry - {e.name}), RemoveEntityLink(e.name), e.net);
    }
    hide CommitCrud;
  }

  lemma OtherFrame(s: State, e: Event)
    requires e.ShutdownSave? || e.Claimed? || e.Published?
    ensures Frame(s, e, Step(s, e))
  {}

  lemma KindFrame(s: State, e: Event)
    requires e.EditKind?
    ensures Frame(s, e, Step(s, e))
  {
    CrudFrame(s, if e.link.Some? then SetKind(e.protocol, e.link.value) else RemoveKind(e.protocol), e.net);
    hide CommitCrud;
  }

  lemma EntityAclFrame(s: State, e: Event)
    requires e.SetEntityAcl?
    ensures Frame(s, e, Step(s, e))
  {
    var node := AclNode(s, e.name, e.newAcl, e.readOk, e.nodePutOk);
    if node.Some? {
      var block := EntityBlock(node.value);
      CrudFrame(s.(kubo := s.kubo.Put(block)), SetEntityLink(e.name, s.kubo.cidOf(block)), e.net);
    }
    hide CommitCrud, AclNode;
  }

  lemma DispatchFrame(s: State, e: Event)
    requires e.Dispatch?
    ensures Frame(s, e, Step(s, e))
  {
    if e.caller in s.registry {
      var entity := s.registry[e.caller];
      CreateEachFrame(s, entity, e.creates);
      DeleteEachFrame(CreateEach(s, entity, e.creates), entity, e.deletes);
    }
  }

  // ── Startup ─────────────────────────────────────────────────────────────────

  const SCHEDULER := "scheduler"

  /** The entity the manifest names, loaded, if every step of loading it works. */
  function LoadNamed(k: Kubo, m: Manifest, name: string, wasm: Wasm): Option<Plugin>
    requires name in m.entities
  {
    match k.GetEntity(m.entities[name])
    case None => None
    case Some(node) =>
      match Trie.Get(m.kinds, Segments(node.kind))
      case None => None
      case Some(link) =>
        match k.GetKind(link)
        case None => None
        case Some(kind) =>
          match LoadPlugin(name, node, kind, wasm)
          case Some(loaded) => Some(loaded.0)
          case None => None
  }

  function LoadedRegistry(k: Kubo, m: Manifest, wasm: string -> Wasm): Registry {
    map n | n in m.entities && LoadNamed(k, m, n, wasm(n)).Some? :: LoadNamed(k, m, n, wasm(n)).value
  }

  method LoadEntities(k: Kubo, m: Manifest, wasm: string -> Wasm) returns (registry: Registry)
    ensures registry == LoadedRegistry(k, m, wasm)
  {
    registry := map[];
    var todo := m.entities.Keys;
    while todo != {}
      invariant todo <= m.entities.Keys
      invariant forall n :: n in registry <==> n in m.entities && n !in todo && LoadNamed(k, m, n, wasm(n)).Some?
      invariant forall n :: n in registry ==> registry[n] == LoadNamed(k, m, n, wasm(n)).value
      decreases todo
    {
      var name :| name in todo;
      var plugin := LoadNamed(k, m, name, wasm(name));
      if plugin.Some? {
        registry := registry[name := plugin.value];
      }
      todo := todo - {name};
    }
  }

  predicate IsCacheKey(key: string) { |key| >= 5 && key[..5] == "acls." }

  lemma CacheKeysAreInjective(a: string, b: string)
    ensures CacheKey(a) == CacheKey(b) <==> a == b
    ensures CacheKey(a)[5..] == a && IsCacheKey(CacheKey(a))
  {}

  /** Under each named ACL's key, its document with the owners entry. */
  ghost predicate CachesAcls(cache: map<string, Acl.AclMap>, k: Kubo, links: map<string, Cid>) {
    && (forall key :: key in cache <==> IsCacheKey(key) && key[5..] in links && k.GetAcl(links[key[5..]]).Some?)
    && (forall key :: key in cache ==> cache[key] == Acl.InjectOwners(k.GetAcl(links[key[5..]]).value))
  }

  /** What startup leaves in the cache: nothing when the manifest is out of reach. */
  ghost predicate StartupCache(s: State, down: set<Cid>) {
    if HeadManifest(s).Some? && s.head.value !in down
    then CachesAcls(s.cache, s.kubo.Without(down), HeadManifest(s).value.acls)
    else s.cache == map[]
  }

  /** The root ACL that startup loads, if everything on the way to it is in reach. */
  function LoadedRootAcl(k: Kubo, head: Option<Cid>, down: set<Cid>): Option<Acl.AclMap> {
    if head.None? || head.value in down || k.GetManifest(head.value).None? then None
    else RootAclDoc(k.Without(down), k.GetManifest(head.value).value)
  }

  function RootAclDoc(k: Kubo, m: Manifest): Option<Acl.AclMap> {
    match m.acl case Some(link) => LoadAcl(k, link, true) case None => None
  }

  method LoadAclCache(k: Kubo, m: Manifest) returns (cache: map<string, Acl.AclMap>)
    ensures CachesAcls(cache, k, m.acls)
  {
    cache := map[];
    var todo := m.acls.Keys;
    while todo != {}
      invariant todo <= m.acls.Keys
      invariant forall key :: key in cache <==>
                  IsCacheKey(key) && key[5..] in m.acls && key[5..] !in todo && k.GetAcl(m.acls[key[5..]]).Some?
      invariant forall key :: key in cache ==> cache[key] == Acl.InjectOwners(k.GetAcl(m.acls[key[5..]]).value)
      decreases todo
    {
      var name :| name in todo;
      var doc := LoadAcl(k, m.acls[name], true);
      if doc.Some? {
        CacheKeysAreInjective(name, name);
        cache := cache[CacheKey(name) := doc.value];
      }
      forall key ensures IsCacheKey(key) && key[5..] == name <==> key == CacheKey(name) {
        CacheKeysAreInjective(name, name);
        if IsCacheKey(key) && key[5..] == name { assert key == key[..5] + key[5..]; }
      }
      todo := todo - {name};
    }
  }

  /** The document of the root ACL, or an empty map, which lets nobody in. */
  method ReadRootAcl(k: Kubo, m: Manifest) returns (acl: Acl.AclMap)
    ensures acl == match RootAclDoc(k, m) case Some(doc) => doc case None => map[]
  {
    acl := map[];
    if m.acl.Some? {
      var doc := LoadAcl(k, m.acl.value, true);
      if doc.Some? { acl := doc.value; }
    }
  }

  function NativeScheduler(acl: string): Plugin {
    Plugin(SCHEDULER, false, true, acl, None)
  }

  // ── The daemon ──────────────────────────────────────────────────────────────

  class Daemon {
    var kubo: Kubo
    var head: Option<Cid>
    var registry: Registry
    const kinds: map<string, KindNode>
    var cache: map<string, Acl.AclMap>
    var rootAcl: Acl.AclMap
    var owners: seq<string>

    ghost function Value(): State reads this {
      State(kubo, head, registry, kinds, cache, rootAcl, owners)
    }

    /** Start from a head: load its entities and its ACLs, then let every configured
        owner in. `downAtLoad` and `downAtCache` are the blocks that cannot be
        fetched meanwhile. */
    constructor (kubo: Kubo, head: Option<Cid>, kinds: map<string, KindNode>, owners: seq<string>,
                 downAtLoad: set<Cid>, downAtCache: set<Cid>, wasm: string -> Wasm, schedulerAcl: string)
      ensures this.kubo == kubo && this.head == head && this.kinds == kinds && this.owners == owners
      ensures registry == (if HeadManifest(Value()).Some? && head.value !in downAtLoad
                           then LoadedRegistry(kubo.Without(downAtLoad), HeadManifest(Value()).value, wasm)
                           else map[])[SCHEDULER := NativeScheduler(schedulerAcl)]
      ensures StartupCache(Value(), downAtCache)
      ensures rootAcl == Acl.WithOwners(match LoadedRootAcl(kubo, head, downAtCache) case Some(doc) => doc case None => map[],
                                        Acl.Members(owners))
    {
      this.kubo, this.head, this.kinds, this.owners := kubo, head, kinds, owners;
      this.registry, this.cache, this.rootAcl := map[], map[], map[];
      new;
      hide LoadedRegistry, CachesAcls, Acl.WithOwners, RootAclDoc;
      if head.Some? && head.value !in downAtLoad {
        var manifest := kubo.GetManifest(head.value);
        if manifest.Some? {
          registry := LoadEntities(kubo.Without(downAtLoad), manifest.value, wasm);
        }
      }
      registry := registry[SCHEDULER := NativeScheduler(schedulerAcl)];
      if head.Some? && head.value !in downAtCache {
        var manifest := kubo.GetManifest(head.value);
        if manifest.Some? {
          rootAcl := ReadRootAcl(kubo.Without(downAtCache), manifest.value);
          cache := LoadAclCache(kubo.Without(downAtCache), manifest.value);
        }
      }
      rootAcl := Acl.GrantOwners(rootAcl, owners);
    }

    /** Fetch the head, edit it, store the result, move the pin and the head. */
    method MoveHead(e: Edit, net: Net) returns (published: Option<Manifest>)
      modifies this`kubo, this`head
      ensures (Value(), published.Some?) == Commit(old(Value()), e, net)
      ensures published.Some? ==> published.value == ApplyEdit(e, old(HeadManifest(Value()).value))
    {
      if head.None? { return None; }
      var manifest := kubo.GetManifest(head.value);
      if manifest.None? || !net.getOk { return None; }
      var edited := ApplyEdit(e, manifest.value);
      if !net.putOk { return None; }
      var oldCid, newCid := head.value, kubo.cidOf(ManifestBlock(edited));
      kubo := kubo.Put(ManifestBlock(edited));
      kubo := kubo.PinUpdate(oldCid, newCid, net.pin).0;
      head := Some(newCid);
      published := Some(edited);
    }

    method WithManifestCrud(e: Edit, net: Net) returns (ok: bool)
      modifies this`kubo, this`head, this`owners
      ensures (Value(), ok) == CommitCrud(old(Value()), e, net)
    {
      var published := MoveHead(e, net);
      ok := published.Some?;
      if ok {
        var list := OwnersIn(published.value);
        if list.Some? {
          owners := list.value;
        }
      }
    }

    method UpdateAclCache(name: string, cid: Cid, fetchOk: bool)
      modifies this`cache
      ensures cache == match LoadAcl(kubo, cid, fetchOk)
                       case Some(doc) => old(cache)[CacheKey(name) := doc]
                       case None => old(cache)
    {
      var doc := LoadAcl(kubo, cid, fetchOk);
      if doc.Some? {
        cache := cache[CacheKey(name) := doc.value];
      }
    }

    method HandleKinds(protocol: string, link: Option<Cid>, net: Net)
      modifies this
      ensures Value() == Step(old(Value()), EditKind(protocol, link, net))
    {
      if link.Some? {
        if !IsCidV1(link.value) { return; }
        var ok := WithManifestCrud(SetKind(protocol, link.value), net);
      } else {
        var ok := WithManifestCrud(RemoveKind(protocol), net);
      }
    }

    method HandleConfig(key: string, value: Option<Yaml>, net: Net)
      modifies this
      ensures Value() == Step(old(Value()), EditConfig(key, value, net))
    {
      if IsProtected(key) || key in DAEMON_CONFIG_KEYS { return; }
      if value.Some? {
        if key !in MANIFEST_CONFIG_KEYS { return; }
        var ok := WithManifestCrud(SetConfig(key, value.value), net);
      } else {
        var ok := WithManifestCrud(RemoveConfig(key), net);
      }
    }

    method HandleSetRootAcl(cid: Cid, fetchOk: bool, net: Net)
      modifies this
      ensures Value() == Step(old(Value()), SetRootAcl(cid, fetchOk, net))
    {
      if !IsCidV1(cid) { return; }
      var doc := LoadAcl(kubo, cid, fetchOk);
      if doc.None? { return; }
      var ok := WithManifestCrud(SetRootAclLink(cid), net);
      if ok {
        rootAcl := doc.value;
      }
    }

    method HandleSetAcl(name: string, cid: Cid, fetchOk: bool, net: Net)
      modifies this
      ensures Value() == Step(old(Value()), SetAcl(name, cid, fetchOk, net))
    {
      if !IsCidV1(cid) { return; }
      var ok := WithManifestCrud(SetAclLink(name, cid), net);
      if ok {
        UpdateAclCache(name, cid, fetchOk);
      }
    }

    method HandleDeleteAcl(name: string, net: Net)
      modifies this
      ensures Value() == Step(old(Value()), DeleteAcl(name, net))
    {
      var ok := WithManifestCrud(RemoveAclLink(name), net);
      if ok {
        cache := cache - {CacheKey(name)};
      }
    }

    method RegisterEntityPlugin(name: string, node: EntityNode, lookupOk: bool, wasm: Wasm)
      modifies this`registry
      ensures Value() == RegisterPlugin(old(Value()), name, node, lookupOk, wasm)
    {
      var kind: KindNode;
      if node.kind in kinds {
        kind := kinds[node.kind];
      } else {
        if head.None? || !lookupOk { return; }
        var manifest := kubo.GetManifest(head.value);
        if manifest.None? { return; }
        var link := Trie.Get(manifest.value.kinds, Segments(node.kind));
        if link.None? { return; }
        var found := kubo.GetKind(link.value);
        if found.None? { return; }
        kind := found.value;
      }
      var loaded := LoadPlugin(name, node, kind, wasm);
      if loaded.Some? {
        registry := registry[name := loaded.value.0];
      }
    }

    method HandleUpsertEntity(name: string, cid: Cid, fetchOk: bool, net: Net, lookupOk: bool, wasm: Wasm)
      modifies this
      ensures Value() == Step(old(Value()), UpsertEntity(name, cid, fetchOk, net, lookupOk, wasm))
    {
      if !AllowedName(name) { return; }
      var node := kubo.GetEntity(cid);
      if node.None? || !fetchOk { return; }
      var ok := WithManifestCrud(SetEntityLink(name, cid), net);
      if ok {
        RegisterEntityPlugin(name, node.value, lookupOk, wasm);
      }
    }

    method HandleDeleteEntity(name: string, net: Net)
      modifies this
      ensures Value() == Step(old(Value()), DeleteEntity(name, net))
    {
      registry := registry - {name};
      var ok := WithManifestCrud(RemoveEntityLink(name), net);
    }

    method HandleSetEntityAcl(name: string, acl: Option<string>, readOk: bool, nodePutOk: bool, net: Net)
      modifies this
      ensures Value() == Step(old(Value()), SetEntityAcl(name, acl, readOk, nodePutOk, net))
    {
      if head.None? || !readOk { return; }
      var manifest := kubo.GetManifest(head.value);
      if manifest.None? { return; }
      if acl.Some? && acl.value !in manifest.value.acls { return; }
      if name !in manifest.value.entities { return; }
      var node := kubo.GetEntity(manifest.value.entities[name]);
      if node.None? { return; }
      var updated := node.value.(acl := if acl.Some? then acl.value else "");
      if !nodePutOk { return; }
      kubo := kubo.Put(EntityBlock(updated));
      var ok := WithManifestCrud(SetEntityLink(name, kubo.cidOf(EntityBlock(updated))), net);
    }

    method PersistEntity(fragment: string, node: EntityNode, nodePutOk: bool, net: Net)
      modifies this`kubo, this`head
      ensures Value() == PersistNewEntity(old(Value()), fragment, node, nodePutOk, net)
    {
      if head.None? { return; }
      var manifest := kubo.GetManifest(head.value);
      if manifest.None? || !net.getOk || !nodePutOk { return; }
      kubo := kubo.Put(EntityBlock(node));
      var published := MoveHead(SetEntityLink(fragment, kubo.cidOf(EntityBlock(node))), net);
    }

    method CreateChild(entity: Plugin, c: Create)
      modifies this
      ensures Value() == CreateOne(old(Value()), entity, c)
    {
      if c.kindProtocol !in kinds { return; }
      var node := ChildNode(entity, c);
      var loaded := LoadPlugin(c.fragment, node, kinds[c.kindProtocol], c.wasm);
      if loaded.None? || loaded.value.1 != Running { return; }
      registry := registry[c.fragment := loaded.value.0];
      PersistEntity(c.fragment, node.(lifecycle := Running), c.nodePutOk, c.net);
    }

    /** The two request loops after a plugin call. */
    method HandleRequests(caller: string, creates: seq<Create>, deletes: seq<string>)
      modifies this
      ensures Value() == Step(old(Value()), Dispatch(caller, creates, deletes))
    {
      if caller !in registry { return; }
      var entity := registry[caller];
      ghost var start := Value();
      for i := 0 to |creates|
        invariant Value() == CreateEach(start, entity, creates[..i])
      {
        assert creates[..i + 1][..i] == creates[..i];
        CreateChild(entity, creates[i]);
      }
      assert creates[..|creates|] == creates;
      ghost var created := Value();
      for i := 0 to |deletes|
        invariant Value() == DeleteEach(created, entity, deletes[..i])
      {
        assert deletes[..i + 1][..i] == deletes[..i];
        var target := deletes[i];
        if target !in registry { continue; }
        if registry[target].parent != Some(entity.fragment) && target != entity.fragment { continue; }
        if exists n :: n in registry && registry[n].parent == Some(target) { continue; }
        registry := registry - {target};
      }
      assert deletes[..|deletes|] == deletes;
    }

    /** The first to ask owns a runtime without owners, and is let in. */
    method HandleClaim(owner: string) returns (claimed: bool)
      modifies this`rootAcl, this`owners
      ensures Value() == Step(old(Value()), Claimed(owner)) && (claimed <==> old(owners) == [])
    {
      if owners != [] { return false; }
      owners := [owner];
      rootAcl := Acl.GrantOwners(rootAcl, owners);
      assert Acl.Members([owner]) == {owner};
      claimed := true;
    }

    method SaveOnShutdown(order: seq<string>, f: Shutdown.Faults, net: Net)
      requires Shutdown.Walk(order, registry)
      modifies this
      ensures Value() == Step(old(Value()), ShutdownSave(order, f, net))
    {
      if head.None? || registry == map[] { return; }
      var manifest := kubo.GetManifest(head.value);
      if manifest.None? || !net.getOk { return; }
      var after, saved := Shutdown.SaveAllEntityStates(kubo, manifest.value, registry, order, f);
      kubo := after;
      var published := MoveHead(SetEntityLinks(saved.entities), net);
    }
  }
}
