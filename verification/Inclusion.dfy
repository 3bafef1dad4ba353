/** Registered entities are named in the head manifest, except those whose
    creation was not persisted (src/rpc.rs, src/crud/entities.rs,
    src/bootstrap.rs). */
module Inclusion {
  import opened Text
  import opened Ipld
  import opened Plugins
  import Shutdown
  import opened Runtime
  import opened Head

  function HeadNames(s: State): set<string> {
    match HeadManifest(s)
    case Some(m) => m.entities.Keys
    case None => {}
  }

  ghost predicate Included(s: State, orphans: set<string>) {
    forall n :: n in s.registry ==> s.registry[n].native || n in orphans || n in HeadNames(s)
  }

  // ── Which creations stay unpersisted ────────────────────────────────────────

  function CreateOrphans(s: State, entity: Plugin, c: Create, orphans: set<string>): set<string> {
    if c.kindProtocol !in s.kinds then orphans
    else
      match LoadPlugin(c.fragment, ChildNode(entity, c), s.kinds[c.kindProtocol], c.wasm)
      case Some((_, Running)) =>
        if Commits(s, c.net) && c.nodePutOk then orphans - {c.fragment} else orphans + {c.fragment}
      case _ => orphans
  }

  function CreateEachOrphans(s: State, entity: Plugin, creates: seq<Create>, orphans: set<string>): set<string>
    decreases |creates|
  {
    if creates == [] then orphans else
      var before := creates[..|creates| - 1];
      CreateOrphans(CreateEach(s, entity, before), entity, creates[|creates| - 1], CreateEachOrphans(s, entity, before, orphans))
  }

  /** Only a plugin's creation can add an orphan; a committed upsert and a CRUD
      delete clear the name. */
  function Orphans(s: State, orphans: set<string>, e: Event): set<string> {
    match e
    case Dispatch(caller, creates, _) =>
      if caller in s.registry then CreateEachOrphans(s, s.registry[caller], creates, orphans) else orphans
    case UpsertEntity(name, cid, fetchOk, net, _, _) =>
      if AllowedName(name) && fetchOk && s.kubo.GetEntity(cid).Some? && Commits(s, net) then orphans - {name} else orphans
    case DeleteEntity(name, _) => orphans - {name}
    case _ => orphans
  }

  function RunOrphans(s: State, orphans: set<string>, es: seq<Event>): set<string>
    decreases |es|
  {
    if es == [] then orphans else
      var before := es[..|es| - 1];
      Orphans(Run(s, before), RunOrphans(s, orphans, before), es[|es| - 1])
  }

  // ── Steps ───────────────────────────────────────────────────────────────────

  predicate NeverForgets(e: Edit) { !e.RemoveEntityLink? && !e.SetEntityLinks? }

  lemma CommitNames(s: State, e: Edit, net: Net)
    requires Inv(s)
    ensures var t := Commit(s, e, net).0;
      && (NeverForgets(e) ==> HeadNames(s) <= HeadNames(t))
      && (Commits(s, net) && e.SetEntityLink? ==> e.name in HeadNames(t))
      && (e.RemoveEntityLink? ==> HeadNames(s) - {e.name} <= HeadNames(t))
      && (e.SetEntityLinks? && HeadNames(s) <= e.links.Keys ==> HeadNames(s) <= HeadNames(t))
      && t.registry == s.registry && t.kinds == s.kinds && Inv(t)
      && (Commit(s, e, net).1 <==> Commits(s, net))
  {
    CommitEdits(s, e, net);
    hide Commit, Inv, Grows;
  }

  lemma CrudNames(s: State, e: Edit, net: Net)
    requires Inv(s)
    ensures var t := CommitCrud(s, e, net).0;
      && (NeverForgets(e) ==> HeadNames(s) <= HeadNames(t))
      && (Commits(s, net) && e.SetEntityLink? ==> e.name in HeadNames(t))
      && (e.RemoveEntityLink? ==> HeadNames(s) - {e.name} <= HeadNames(t))
      && t.registry == s.registry && t.kinds == s.kinds && Inv(t)
      && (CommitCrud(s, e, net).1 <==> Commits(s, net))
  {
    CrudEdits(s, e, net);
    hide CommitCrud, Inv, Grows;
  }

  lemma PutNames(s: State, b: Block)
    requires Inv(s)
    ensures Inv(s.(kubo := s.kubo.Put(b))) && HeadManifest(s.(kubo := s.kubo.Put(b))) == HeadManifest(s)
  {
    PutMovesNothing(s, b);
  }

  lemma CreateOneIncluded(s: State, entity: Plugin, c: Create, orphans: set<string>)
    requires Inv(s) && Included(s, orphans)
    ensures Inv(CreateOne(s, entity, c)) && Included(CreateOne(s, entity, c), CreateOrphans(s, entity, c, orphans))
  {
    if c.kindProtocol in s.kinds {
      match LoadPlugin(c.fragment, ChildNode(entity, c), s.kinds[c.kindProtocol], c.wasm) {
        case Some((plugin, Running)) =>
          var r := s.(registry := s.registry[c.fragment := plugin]);
          var node := ChildNode(entity, c).(lifecycle := Running);
          if HeadManifest(r).Some? && c.net.getOk && c.nodePutOk {
            PutNames(r, EntityBlock(node));
            CommitNames(r.(kubo := r.kubo.Put(EntityBlock(node))),
                        SetEntityLink(c.fragment, s.kubo.cidOf(EntityBlock(node))), c.net);
          }
        case _ =>
      }
    }
  }

  lemma {:induction false} CreateEachIncluded(s: State, entity: Plugin, creates: seq<Create>, orphans: set<string>)
    requires Inv(s) && Included(s, orphans)
    ensures Inv(CreateEach(s, entity, creates))
    ensures Included(CreateEach(s, entity, creates), CreateEachOrphans(s, entity, creates, orphans))
    decreases |creates|
  {
    if creates != [] {
      var before := creates[..|creates| - 1];
      CreateEachIncluded(s, entity, before, orphans);
      CreateOneIncluded(CreateEach(s, entity, before), entity, creates[|creates| - 1],
                        CreateEachOrphans(s, entity, before, orphans));
    }
  }

  lemma {:induction false} DeleteEachShrinks(s: State, entity: Plugin, deletes: seq<string>)
    ensures var t := DeleteEach(s, entity, deletes);
      && t == s.(registry := t.registry)
      && forall n :: n in t.registry ==> n in s.registry && t.registry[n] == s.registry[n]
    decreases |deletes|
  {
    if deletes != [] {
      DeleteEachShrinks(s, entity, deletes[..|deletes| - 1]);
    }
  }

  lemma ShutdownIncluded(s: State, order: seq<string>, f: Shutdown.Faults, net: Net)
    requires Inv(s)
    ensures HeadNames(s) <= HeadNames(OnShutdown(s, order, f, net)) && OnShutdown(s, order, f, net).registry == s.registry
  {
    if !(HeadManifest(s).None? || s.registry == map[] || !net.getOk) {
      var (k, m) := Shutdown.SaveEach(s.kubo, HeadManifest(s).value, s.registry, order, f);
      Shutdown.SaveEachGrows(s.kubo, HeadManifest(s).value, s.registry, order, f);
      var t := s.(kubo := k);
      assert HeadManifest(t) == HeadManifest(s);
      CommitNames(t, SetEntityLinks(m.entities), net);
    }
  }

  lemma RegisteringAddsOneName(s: State, name: string, node: EntityNode, lookupOk: bool, wasm: Wasm)
    ensures var t := RegisterPlugin(s, name, node, lookupOk, wasm);
      t == s.(registry := t.registry)
      && forall n :: n in t.registry && n != name ==> n in s.registry && t.registry[n] == s.registry[n]
  {}

  lemma UpsertIncluded(s: State, orphans: set<string>, name: string, cid: Cid, fetchOk: bool, net: Net, lookupOk: bool, wasm: Wasm)
    requires Inv(s) && Included(s, orphans)
    ensures Included(OnUpsertEntity(s, name, cid, fetchOk, net, lookupOk, wasm),
                     Orphans(s, orphans, UpsertEntity(name, cid, fetchOk, net, lookupOk, wasm)))
  {
    if AllowedName(name) && fetchOk && s.kubo.GetEntity(cid).Some? {
      CrudNames(s, SetEntityLink(name, cid), net);
      RegisteringAddsOneName(CommitCrud(s, SetEntityLink(name, cid), net).0, name, s.kubo.GetEntity(cid).value, lookupOk, wasm);
    }
  }

  lemma SetEntityAclIncluded(s: State, orphans: set<string>, e: Event)
    requires Inv(s) && Included(s, orphans) && e.SetEntityAcl?
    ensures Included(Step(s, e), orphans)
  {
    if AclNode(s, e.name, e.newAcl, e.readOk, e.nodePutOk).Some? {
      var node := AclNode(s, e.name, e.newAcl, e.readOk, e.nodePutOk).value;
      PutNames(s, EntityBlock(node));
      CrudNames(s.(kubo := s.kubo.Put(EntityBlock(node))), SetEntityLink(e.name, s.kubo.cidOf(EntityBlock(node))), e.net);
    }
  }

  lemma AclEditIncluded(s: State, orphans: set<string>, e: Event)
    requires Inv(s) && Included(s, orphans) && (e.SetRootAcl? || e.SetAcl? || e.DeleteAcl?)
    ensures Included(Step(s, e), orphans)
  {
    hide Inv, CommitCrud;
    match e {
      case SetRootAcl(cid, _, net) => CrudNames(s, SetRootAclLink(cid), net);
      case SetAcl(name, cid, _, net) => CrudNames(s, SetAclLink(name, cid), net);
      case DeleteAcl(name, net) => CrudNames(s, RemoveAclLink(name), net);
    }
  }

  lemma PlainEditIncluded(s: State, orphans: set<string>, e: Event)
    requires Inv(s) && Included(s, orphans) && (e.EditKind? || e.EditConfig?)
    ensures Included(Step(s, e), orphans)
  {
    match e {
      case EditKind(protocol, Some(cid), net) => CrudNames(s, SetKind(protocol, cid), net);
      case EditKind(protocol, None, net) => CrudNames(s, RemoveKind(protocol), net);
      case EditConfig(key, value, net) => CrudNames(s, ConfigEdit(key, value), net);
    }
  }

  lemma DispatchIncluded(s: State, orphans: set<string>, e: Event)
    requires Inv(s) && Included(s, orphans) && e.Dispatch?
    ensures Included(Step(s, e), Orphans(s, orphans, e))
  {
    if e.caller in s.registry {
      var entity := s.registry[e.caller];
      CreateEachIncluded(s, entity, e.creates, orphans);
      DeleteEachShrinks(CreateEach(s, entity, e.creates), entity, e.deletes);
    }
  }

  lemma StepIncluded(s: State, orphans: set<string>, e: Event)
    requires Inv(s) && Included(s, orphans)
    ensures Included(Step(s, e), Orphans(s, orphans, e))
  {
    match e {
      case UpsertEntity(name, cid, fetchOk, net, lookupOk, wasm) =>
        UpsertIncluded(s, orphans, name, cid, fetchOk, net, lookupOk, wasm);
      case DeleteEntity(name, net) => CrudNames(s.(registry := s.registry - {name}), RemoveEntityLink(name), net);
      case SetEntityAcl(_, _, _, _, _) => SetEntityAclIncluded(s, orphans, e);
      case Dispatch(_, _, _) => DispatchIncluded(s, orphans, e);
      case ShutdownSave(order, f, net) => ShutdownIncluded(s, order, f, net);
      case Claimed(_) =>
      case Published(block) => PutNames(s, block);
      case EditKind(_, _, _) => PlainEditIncluded(s, orphans, e);
      case EditConfig(_, _, _) => PlainEditIncluded(s, orphans, e);
      case _ => AclEditIncluded(s, orphans, e);
    }
  }

  /** After every event of every run, each registered Wasm entity is named in the
      head manifest, unless its own creation was never persisted. */
  lemma {:induction false} RunIncluded(s: State, orphans: set<string>, es: seq<Event>)
    requires Inv(s) && Included(s, orphans)
    ensures Inv(Run(s, es)) && Included(Run(s, es), RunOrphans(s, orphans, es))
    decreases |es|
  {
    if es != [] {
      var before := es[..|es| - 1];
      RunIncluded(s, orphans, before);
      StepIncluded(Run(s, before), RunOrphans(s, orphans, before), es[|es| - 1]);
      RunIsLinear(s, es);
    }
  }

  /** The registry that startup builds needs no exception. */
  lemma StartupIncluded(s: State, down: set<Cid>, wasm: string -> Wasm, schedulerAcl: string)
    requires HeadManifest(s).Some?
    requires s.registry == LoadedRegistry(s.kubo.Without(down), HeadManifest(s).value, wasm)[SCHEDULER := NativeScheduler(schedulerAcl)]
    ensures Included(s, {})
    ensures forall n :: n in s.registry ==> s.registry[n].fragment == n
  {}

  // ── What a creation leaves behind ───────────────────────────────────────────

  /** A created entity that was persisted is described alike by the registry and
      by the node behind the head: running, a child of its creator, under the
      creator's ACL. A failed `init` leaves no trace at all. */
  lemma CreatedEntityAgrees(s: State, entity: Plugin, c: Create)
    requires Inv(s) && Commits(s, c.net) && c.nodePutOk
    ensures var t := CreateOne(s, entity, c);
      || t == s
      || (&& c.fragment in t.registry && HeadManifest(t).Some? && c.fragment in HeadManifest(t).value.entities
          && t.kubo.GetEntity(HeadManifest(t).value.entities[c.fragment])
             == Some(EntityNode(c.kindProtocol, Some(c.behaviour), t.registry[c.fragment].acl, None,
                                t.registry[c.fragment].parent, None, Running))
          && t.registry[c.fragment].acl == entity.acl && t.registry[c.fragment].parent == Some(entity.fragment))
    ensures c.kindProtocol in s.kinds && "init" in s.kinds[c.kindProtocol].api && c.wasm != InitOk ==> CreateOne(s, entity, c) == s
  {
    if c.kindProtocol in s.kinds {
      match LoadPlugin(c.fragment, ChildNode(entity, c), s.kinds[c.kindProtocol], c.wasm) {
        case Some((plugin, Running)) =>
          var node := ChildNode(entity, c).(lifecycle := Running);
          var r := s.(registry := s.registry[c.fragment := plugin], kubo := s.kubo.Put(EntityBlock(node)));
          PutMovesNothing(s.(registry := s.registry[c.fragment := plugin]), EntityBlock(node));
          PutGrows(s.kubo, EntityBlock(node));
          var e := SetEntityLink(c.fragment, s.kubo.cidOf(EntityBlock(node)));
          CommitMoves(r, e, c.net);
          assert HeadManifest(Commit(r, e, c.net).0) == Some(ApplyEdit(e, HeadManifest(r).value));
        case _ =>
      }
    }
  }

  /** Changing an entity's ACL name edits its node only: the loaded plugin, whose
      name the verb gate uses, follows if and only if it had that name already. */
  lemma AclNameReachesPluginIff(s: State, name: string, acl: Option<string>, net: Net)
    requires Inv(s) && Commits(s, net) && name in s.registry
    requires AclNode(s, name, acl, true, true).Some?
    ensures var t := OnSetEntityAcl(s, name, acl, true, true, net);
      && t.registry == s.registry && HeadManifest(t).Some? && name in HeadManifest(t).value.entities
      && t.kubo.GetEntity(HeadManifest(t).value.entities[name]).Some?
      && (t.kubo.GetEntity(HeadManifest(t).value.entities[name]).value.acl == t.registry[name].acl
          <==> s.registry[name].acl == match acl case Some(a) => a case None => "")
  {
    var node := AclNode(s, name, acl, true, true).value;
    var r := s.(kubo := s.kubo.Put(EntityBlock(node)));
    PutMovesNothing(s, EntityBlock(node));
    PutGrows(s.kubo, EntityBlock(node));
    var e := SetEntityLink(name, s.kubo.cidOf(EntityBlock(node)));
    CrudEdits(r, e, net);
  }
}
