/** When an entity comes to be registered, as what, and when it goes again
    (src/plugin.rs, src/rpc.rs, src/crud/helpers.rs, src/bootstrap.rs). */
module Loading {
  import opened Text
  import opened Ipld
  import opened Plugins
  import Trie
  import opened ProtocolIds
  import opened Runtime
  import opened Head
  import opened Edits

  /** A kind says itself whether its plugins keep state. */
  predicate SaysStateful(kind: KindNode) {
    "stateful" in kind.attributes && kind.attributes["stateful"].JsonBool? && kind.attributes["stateful"].b
  }

  /** Only Wasm kinds load, from a module that works; a failed `init` does not
      prevent that. */
  predicate Loads(node: EntityNode, kind: KindNode, wasm: Wasm) {
    kind.evaluator == Extism && node.behaviour.Some? && wasm != Broken
  }

  /** The plugin of a node, under the given fragment. */
  ghost predicate IsPluginOf(p: Plugin, fragment: string, node: EntityNode, kind: KindNode) {
    && p.fragment == fragment && p.acl == node.acl && p.parent == node.parent
    && !p.native && (p.stateful <==> SaysStateful(kind))
  }

  lemma LoadingIs(fragment: string, node: EntityNode, kind: KindNode, wasm: Wasm)
    ensures var r := LoadPlugin(fragment, node, kind, wasm);
      && (r.Some? <==> Loads(node, kind, wasm))
      && (r.Some? ==> IsPluginOf(r.value.0, fragment, node, kind)
                      && r.value.1 == if "init" in kind.api && wasm == InitError then Error else Running)
  {}

  // ── Creation by a plugin ────────────────────────────────────────────────────

  /** The kind is known and Wasm, the module works, and `init` does not fail. */
  predicate Starts(s: State, c: Create) {
    && c.kindProtocol in s.kinds && s.kinds[c.kindProtocol].evaluator == Extism
    && c.wasm != Broken && !("init" in s.kinds[c.kindProtocol].api && c.wasm == InitError)
  }

  /** What the creator passes on to the child. */
  ghost predicate IsChild(node: EntityNode, entity: Plugin, c: Create) {
    && node.kind == c.kindProtocol && node.behaviour == Some(c.behaviour) && node.acl == entity.acl && node.state == None
    && node.parent == Some(entity.fragment) && node.displayLabel == None
  }

  /** A creation registers its fragment if and only if it starts, and registers
      nothing else; a creation that does not start leaves no trace. */
  lemma CreationRegistersIff(s: State, entity: Plugin, c: Create)
    ensures var t := CreateOne(s, entity, c);
      && (Starts(s, c) ==>
            && c.fragment in t.registry && t.registry == s.registry[c.fragment := t.registry[c.fragment]]
            && t.registry[c.fragment].fragment == c.fragment && t.registry[c.fragment].acl == entity.acl
            && t.registry[c.fragment].parent == Some(entity.fragment) && !t.registry[c.fragment].native
            && (t.registry[c.fragment].stateful <==> SaysStateful(s.kinds[c.kindProtocol])))
      && (!Starts(s, c) ==> t == s)
  {
    StartedCreation(s, entity, c);
    hide CreateOne, PersistNewEntity;
  }

  /** It is linked in the head, as a running child of the creator, if and only if it
      starts and both its node and the new manifest can be stored. */
  lemma CreationLinksIff(s: State, entity: Plugin, c: Create, m: Manifest, m': Manifest)
    requires Inv(s) && HeadManifest(s) == Some(m) && HeadManifest(CreateOne(s, entity, c)) == Some(m')
    ensures var t := CreateOne(s, entity, c);
      var ok := Starts(s, c) && c.nodePutOk && c.net.getOk && c.net.putOk;
      && (ok ==>
            && c.fragment in m'.entities && Written(m.entities, m'.entities, c.fragment, m'.entities[c.fragment])
            && m' == m.(entities := m'.entities)
            && t.kubo.GetEntity(m'.entities[c.fragment]).Some?
            && IsChild(t.kubo.GetEntity(m'.entities[c.fragment]).value, entity, c)
            && t.kubo.GetEntity(m'.entities[c.fragment]).value.lifecycle == Running)
      && (!ok ==> m' == m)
  {
    StartedCreation(s, entity, c);
    if Starts(s, c) {
      hide CreateOne;
      var p := CreateOne(s, entity, c).registry[c.fragment];
      PersistedChild(s.(registry := s.registry[c.fragment := p]), c.fragment, ChildNode(entity, c).(lifecycle := Running),
                     c.nodePutOk, c.net, m);
      hide PersistNewEntity, Inv, Written;
    }
  }

  lemma StartedCreation(s: State, entity: Plugin, c: Create)
    ensures !Starts(s, c) ==> CreateOne(s, entity, c) == s
    ensures Starts(s, c) ==>
              var t := CreateOne(s, entity, c);
              && c.fragment in t.registry && IsPluginOf(t.registry[c.fragment], c.fragment, ChildNode(entity, c), s.kinds[c.kindProtocol])
              && t == PersistNewEntity(s.(registry := s.registry[c.fragment := t.registry[c.fragment]]), c.fragment,
                                       ChildNode(entity, c).(lifecycle := Running), c.nodePutOk, c.net)
              && t.registry == s.registry[c.fragment := t.registry[c.fragment]]
  {
    if c.kindProtocol in s.kinds {
      LoadingIs(c.fragment, ChildNode(entity, c), s.kinds[c.kindProtocol], c.wasm);
    }
    hide LoadPlugin, Commit, Kubo.Put;
  }

  lemma PersistedChild(s: State, fragment: string, node: EntityNode, nodePutOk: bool, net: Net, m: Manifest)
    requires Inv(s) && HeadManifest(s) == Some(m)
    ensures var t := PersistNewEntity(s, fragment, node, nodePutOk, net);
      && HeadManifest(t).Some?
      && var m' := HeadManifest(t).value;
      if nodePutOk && net.getOk && net.putOk
      then fragment in m'.entities && Written(m.entities, m'.entities, fragment, m'.entities[fragment])
           && m' == m.(entities := m'.entities) && t.kubo.GetEntity(m'.entities[fragment]) == Some(node)
      else m' == m
  {
    if nodePutOk && net.getOk {
      var block := EntityBlock(node);
      var r := s.(kubo := s.kubo.Put(block));
      PutMovesNothing(s, block);
      PutGrows(s.kubo, block);
      CommitEdits(r, SetEntityLink(fragment, s.kubo.cidOf(block)), net);
      hide Commit, Inv, Kubo.Put;
    }
  }

  ghost predicate StartsAs(s: State, creates: seq<Create>, i: int, f: string) {
    0 <= i < |creates| && creates[i].fragment == f && Starts(s, creates[i])
  }

  /** After all creations of a dispatch exactly the starting ones are registered,
      beside what was registered before; one that fails stops no other. */
  lemma {:induction false} StartingCreationsRegister(s: State, entity: Plugin, creates: seq<Create>, f: string)
    ensures CreateEach(s, entity, creates).kinds == s.kinds
    ensures f in CreateEach(s, entity, creates).registry <==> f in s.registry || exists i :: StartsAs(s, creates, i, f)
    decreases |creates|
  {
    if creates != [] {
      var n := |creates| - 1;
      var before := creates[..n];
      StartingCreationsRegister(s, entity, before, f);
      StartedCreation(CreateEach(s, entity, before), entity, creates[n]);
      CreateEachFrame(s, entity, creates);
      OneMoreStart(s, creates, f);
      hide CreateOne, StartsAs, PersistNewEntity;
    }
  }

  lemma OneMoreStart(s: State, creates: seq<Create>, f: string)
    requires creates != []
    ensures var n := |creates| - 1;
      (exists i :: StartsAs(s, creates, i, f)) <==>
        (exists i :: StartsAs(s, creates[..n], i, f)) || (creates[n].fragment == f && Starts(s, creates[n]))
  {
    var n := |creates| - 1;
    hide Starts;
    assert StartsAs(s, creates, n, f) <==> creates[n].fragment == f && Starts(s, creates[n]);
    forall i | 0 <= i < n ensures StartsAs(s, creates[..n], i, f) <==> StartsAs(s, creates, i, f) {}
    if i :| StartsAs(s, creates[..n], i, f) {
      assert StartsAs(s, creates, i, f);
    }
  }

  // ── Deletion by a plugin ────────────────────────────────────────────────────

  /** The caller may delete itself and its children, if nobody is left below. */
  ghost predicate Entitled(reg: Registry, entity: Plugin, target: string) {
    && target in reg && (target == entity.fragment || reg[target].parent == Some(entity.fragment))
    && forall n :: n in reg ==> reg[n].parent != Some(target)
  }

  /** One request removes its target exactly then, and never anything else. */
  lemma DeletionSucceedsIff(s: State, entity: Plugin, target: string)
    ensures var t := DeleteOne(s, entity, target);
      t == if Entitled(s.registry, entity, target) then s.(registry := t.registry) else s
    ensures Entitled(s.registry, entity, target) ==> Erased(s.registry, DeleteOne(s, entity, target).registry, target)
  {
    assert HasChildren(s.registry, target) <==> exists n :: n in s.registry && s.registry[n].parent == Some(target);
  }

  /** Whatever else is requested with it, a requested entity the caller is entitled
      to delete is gone after the dispatch. */
  lemma {:induction false} RequestedIsRemoved(s: State, entity: Plugin, deletes: seq<string>, target: string)
    ensures var t := DeleteEach(s, entity, deletes);
      && t == s.(registry := t.registry)
      && (forall n :: n in t.registry ==> n in s.registry && t.registry[n] == s.registry[n])
      && (Entitled(s.registry, entity, target) && target in deletes ==> target !in t.registry)
    decreases |deletes|
  {
    if deletes != [] {
      var n := |deletes| - 1;
      var u := DeleteEach(s, entity, deletes[..n]);
      RequestedIsRemoved(s, entity, deletes[..n], target);
      DeletionSucceedsIff(u, entity, deletes[n]);
      assert target in deletes ==> target in deletes[..n] || target == deletes[n];
      if Entitled(s.registry, entity, target) && target in u.registry {
        assert Entitled(u.registry, entity, target);
      }
      hide DeleteOne;
    }
  }

  /** So does a whole dispatch: it registers what starts, then removes what it may;
      a message to an unknown fragment does neither. */
  lemma DispatchDoesWhatItIsAsked(s: State, caller: string, creates: seq<Create>, deletes: seq<string>, f: string)
    ensures caller !in s.registry ==> OnDispatch(s, caller, creates, deletes) == s
    ensures caller in s.registry && (exists i :: StartsAs(s, creates, i, f)) && f !in deletes ==>
              f in OnDispatch(s, caller, creates, deletes).registry
    ensures caller in s.registry && f in deletes
            && Entitled(CreateEach(s, s.registry[caller], creates).registry, s.registry[caller], f) ==>
              f !in OnDispatch(s, caller, creates, deletes).registry
  {
    if caller in s.registry {
      var entity := s.registry[caller];
      StartingCreationsRegister(s, entity, creates, f);
      RequestedIsRemoved(CreateEach(s, entity, creates), entity, deletes, f);
      if f !in deletes {
        UnrequestedStays(CreateEach(s, entity, creates), entity, deletes, f);
      }
      hide StartsAs, Entitled;
    }
  }

  lemma {:induction false} UnrequestedStays(s: State, entity: Plugin, deletes: seq<string>, f: string)
    requires f !in deletes
    ensures f in DeleteEach(s, entity, deletes).registry <==> f in s.registry
    decreases |deletes|
  {
    if deletes != [] {
      var n := |deletes| - 1;
      assert deletes[n] in deletes && forall x :: x in deletes[..n] ==> x in deletes;
      UnrequestedStays(s, entity, deletes[..n], f);
    }
  }

  // ── Upserts ─────────────────────────────────────────────────────────────────

  /** The kind an upserted node is loaded with: from the registry of kinds, or,
      failing that, as the head links it. */
  ghost predicate LoadsWith(s: State, kind: string, lookupOk: bool, m: Manifest, k: KindNode) {
    if kind in s.kinds then k == s.kinds[kind]
    else lookupOk && Segments(kind) in Trie.View(m.kinds) && s.kubo.GetKind(Trie.View(m.kinds)[Segments(kind)]) == Some(k)
  }

  /** Registering puts in the plugin of the node, in the place of any older one, if
      and only if its kind is found and it loads; a failed `init` does not matter. */
  lemma RegistersIff(s: State, name: string, node: EntityNode, lookupOk: bool, wasm: Wasm, m: Manifest)
    requires HeadManifest(s) == Some(m)
    ensures var t := RegisterPlugin(s, name, node, lookupOk, wasm);
      && (forall k :: LoadsWith(s, node.kind, lookupOk, m, k) && Loads(node, k, wasm) ==>
            && name in t.registry && t == s.(registry := s.registry[name := t.registry[name]])
            && IsPluginOf(t.registry[name], name, node, k))
      && ((forall k :: LoadsWith(s, node.kind, lookupOk, m, k) ==> !Loads(node, k, wasm)) ==> t == s)
  {
    KindForIs(s, node.kind, lookupOk, m);
    var kind := KindFor(s, node.kind, lookupOk);
    if kind.Some? {
      assert LoadsWith(s, node.kind, lookupOk, m, kind.value);
      LoadingIs(name, node, kind.value, wasm);
    }
    hide KindFor, LoadPlugin, LoadsWith;
  }

  lemma KindForIs(s: State, kind: string, lookupOk: bool, m: Manifest)
    requires HeadManifest(s) == Some(m)
    ensures forall k :: LoadsWith(s, kind, lookupOk, m, k) <==> KindFor(s, kind, lookupOk) == Some(k)
  {
    assert Segments(kind) in Trie.View(m.kinds) <==> Trie.Get(m.kinds, Segments(kind)).Some?;
  }

  /** A committed upsert registers the plugin of the node it links. */
  lemma UpsertRegisters(s: State, e: Event, m: Manifest, m': Manifest, k: KindNode)
    requires Inv(s) && e.UpsertEntity? && Edited(s, e, m, m')
    requires UsableName(e.name) && e.fetchOk && s.kubo.GetEntity(e.cid).Some? && e.net.getOk && e.net.putOk
    requires LoadsWith(Step(s, e), s.kubo.GetEntity(e.cid).value.kind, e.lookupOk, m', k)
    requires Loads(s.kubo.GetEntity(e.cid).value, k, e.wasm)
    ensures var t := Step(s, e);
      && e.name in t.registry && t.registry == s.registry[e.name := t.registry[e.name]]
      && IsPluginOf(t.registry[e.name], e.name, s.kubo.GetEntity(e.cid).value, k)
  {
    var node := s.kubo.GetEntity(e.cid).value;
    var u := CommitCrud(s, SetEntityLink(e.name, e.cid), e.net).0;
    UsableNamesAreAllowed(e.name);
    CrudEdits(s, SetEntityLink(e.name, e.cid), e.net);
    assert Step(s, e) == RegisterPlugin(u, e.name, node, e.lookupOk, e.wasm);
    RegisteringKeeps(u, e.name, node, e.lookupOk, e.wasm);
    RegistersIff(u, e.name, node, e.lookupOk, e.wasm, m');
    hide CommitCrud, Step, RegisterPlugin, Inv, UsableName, AllowedName, Loads, IsPluginOf;
  }

  lemma RegisteringKeeps(s: State, name: string, node: EntityNode, lookupOk: bool, wasm: Wasm)
    ensures var t := RegisterPlugin(s, name, node, lookupOk, wasm); t == s.(registry := t.registry)
  {}

  // ── Startup ─────────────────────────────────────────────────────────────────

  /** The manifest names this entity, its node and the node of its kind can be
      read, and it loads. */
  ghost predicate LoadedAs(k: Kubo, m: Manifest, n: string, wasm: Wasm, node: EntityNode, kind: KindNode) {
    && n in m.entities && k.GetEntity(m.entities[n]) == Some(node)
    && Segments(node.kind) in Trie.View(m.kinds) && k.GetKind(Trie.View(m.kinds)[Segments(node.kind)]) == Some(kind)
    && Loads(node, kind, wasm)
  }

  /** Startup registers exactly these, each as the plugin of its own node. */
  lemma StartupLoadsIff(k: Kubo, m: Manifest, wasm: string -> Wasm, n: string)
    ensures var reg := LoadedRegistry(k, m, wasm);
      && (n in reg <==> exists node, kind :: LoadedAs(k, m, n, wasm(n), node, kind))
      && forall node, kind :: LoadedAs(k, m, n, wasm(n), node, kind) ==> n in reg && IsPluginOf(reg[n], n, node, kind)
  {
    if n in m.entities && k.GetEntity(m.entities[n]).Some? {
      var node := k.GetEntity(m.entities[n]).value;
      assert Segments(node.kind) in Trie.View(m.kinds) <==> Trie.Get(m.kinds, Segments(node.kind)).Some?;
      if Segments(node.kind) in Trie.View(m.kinds) {
        var kind := k.GetKind(Trie.View(m.kinds)[Segments(node.kind)]);
        if kind.Some? {
          LoadingIs(n, node, kind.value, wasm(n));
          assert LoadedAs(k, m, n, wasm(n), node, kind.value) <==> Loads(node, kind.value, wasm(n));
        }
      }
    }
    hide LoadPlugin;
  }
}
