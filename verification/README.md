# Verified model of the ma runtime's persistent state

The ma runtime keeps its state as content-addressed documents. A root manifest links kinds, entities and access
lists; every change fetches the manifest, edits it, stores the result and moves the head and its pin. Beside the
manifest live structures in memory that have to agree with it: the registry of loaded entities, the cache of access
lists, the tracked state of each plugin. This project models that core in Dafny and proves what keeps it together.

| file | what it models |
|---|---|
| `Text.dfy` | splitting, joining and ordering of strings |
| `Trie.dfy`, `ProtocolIds.dfy` | the kind tree, as a map from segment paths to links and under its string IDs |
| `Acl.dfy` | access decisions with groups |
| `Ipld.dfy`, `Plugins.dfy` | the stored documents, the store with its pins, loaded entities |
| `Bootstrap.dfy`, `RoundTrip.dfy` | publishing a descriptor, exporting it, and that the two undo each other |
| `Shutdown.dfy` | saving every entity's state, with a failure possible at each |
| `Runtime.dfy` | the daemon: startup, the handlers, events and runs |
| `Edits.dfy`, `Loading.dfy` | what each request does to the manifest behind the head, and to the registry |
| `Head.dfy`, `AclCache.dfy`, `RootAcl.dfy`, `Owners.dfy`, `Inclusion.dfy`, `Hierarchy.dfy` | what every run of the daemon keeps |
| `Startup.dfy` | where these runs begin |
| `Register.dfy`, `PluginState.dfy` | the register plugin; tracked plugin state and request queues |
| `Publisher.dfy`, `Duration.dfy`, `CrudPath.dfy` | the periodic publish task; durations; addresses of structured data |

`dafny verify dfyconfig.toml` checks all of it.

## How the outside world appears

- The store is a map from identifiers to typed blocks. The content hash is an arbitrary function that maps different
  blocks to different identifiers (`Kubo.Valid`); encoding is lossless, and a block of one type never reads as
  another. Anybody may add blocks at any time (`Published`).
- Every outside call may fail. Its outcome is part of the event or argument (`Net`, `PinNet`, `Faults`, `Wasm`,
  `accepts`, `fetchOk`), and statements hold for all outcomes.
- The event loop handles one message at a time, so a handler is one step. Requests enter the model after their access
  check; the check itself is `Acl.CheckFull`.
- `check_cap` and the group prefix belong to ma-core. They follow the tests and README.md:382: the exact entry decides,
  otherwise `*`; groups begin with `+`. Principal normalisation is an arbitrary function.
- Maps without an order are walked in an arbitrary one, or in any order given as an argument (the shutdown event
  carries its own).

## Where code and documentation differ

The model follows the code.

- README.md:382 says deny always wins. A denied *group* loses against a capability that passes the direct check
  (`Acl.GroupDenyWinsIffNothingPassesDirectly`, `Acl.DeniedGroupMemberGetsIn`).
- src/plugin.rs:121-130 describes `dirty` as "pending differs from persisted". A dispatch that writes new bytes and
  then the persisted bytes again saves the wrong ones and reports itself clean; `PluginState` gives the exact condition.
- src/bootstrap.rs:258-262 promises the full descriptor. Parent, label and lifecycle of an entity are dropped, so
  rebuilding keeps the entity links exactly when none of them is set (`RoundTrip.RebuildOfExport`).
- src/entity.rs:371 calls `parent` a DID-URL; creation and deletion use bare fragments (src/rpc.rs:265, src/rpc.rs:354).
- src/entity.rs:294-296 says the registry of kinds is filled at bootstrap and on upsert. Nothing fills it, so its
  contents are an arbitrary fixed map here.
- Changing an entity's `acl` field does not reach the loaded plugin that the verb gate asks
  (`Inclusion.AclNameReachesPluginIff`).
- A child whose parent cannot be loaded at startup is registered all the same (`Hierarchy.StartedForestIff`).
- The plugin path refuses to delete a parent; the CRUD path does not look, neither when it deletes nor when it replaces
  (`Hierarchy.DeleteKeepsForestIff`, `Hierarchy.UpsertKeepsForestIff`).
- src/acl.rs:52-54 says owners can never be locked out. The list of owners that the gates look at is replaced by the one
  in the manifest, if it holds one, with every structured-data request that is committed (src/crud/helpers.rs:104-112), so
  a configured or claimed owner stays one exactly as `Owners.OwnerStaysIff` says. On a minimal manifest, whose list is empty, the first
  such request makes the runtime ownerless; if it publishes a root ACL that leaves the owner out, the owner is refused
  and anybody may claim the runtime (`Owners.OwnerLocksOut`).
- Entity management (src/crud/entities.rs:16-31) does not look at that list but at the live ACL alone: an owner passes it
  while let in, unless everybody is denied (`RootAcl.OwnerPassesUnlessAllDenied`), and stops being let in with the next
  write to the root ACL (`RootAcl.GrantsLastUntilReplaced`).
- src/crud/mod.rs:113 gives the root ACL handler no path segments, so `:acl.x` is `:acl` (`CrudPath.DifferentPayloadsMeet`).

## Model

| member | source | states |
|---|---|---|
| Trie.InsertRefines | src/entity.rs:69-84 | insertion refines the flat map: refused under a stored proper prefix, otherwise it replaces everything below the path |
| Trie.RemoveRefines | src/entity.rs:103-119 | removal drops the path and all its extensions, nothing else |
| Trie.ReportsRemoval | src/entity.rs:103-119 | the returned flag is true if and only if a stored link went away |
| Trie.ViewPrefixFree | src/entity.rs:22-33 | no stored path is a proper prefix of another |
| Trie.CanonicalTreesAreTheirViews | src/entity.rs:103-119 | trees without empty branches are equal if and only if they store the same links |
| Trie.InsertThenRemove | src/entity.rs:69-119 | inserting a path comparable with no stored one and removing it restores the tree, branch by branch |
| Trie.InsertsCommute | src/entity.rs:69-84 | inserts at incomparable paths commute |
| Trie.RunRefines | src/entity.rs:69-119 | every run of inserts and removes is a run of the flat map and leaves no empty branch |
| Trie.OnlyMinimalPathsRemain | src/entity.rs:69-84 | after any inserts, in any order, exactly the paths without a stored proper prefix remain, each with the link inserted last |
| ProtocolIds.ListedIdLeadsBack | src/entity.rs:37-58 | the ID listed for a path leads back to that path |
| ProtocolIds.CanonicalIdIsListed | src/entity.rs:37-58 | an ID with exactly one leading slash is listed as it was given |
| ProtocolIds.LeavesAreStored | src/entity.rs:121-133 | the walk lists a path if and only if it is stored |
| ProtocolIds.LeavesAscend | src/entity.rs:121-133 | the walk is strictly increasing in segment order |
| Text.LessIffParts | src/entity.rs:121-133 | the order of a sorted map: the shorter prefix first, otherwise the smaller character where two keys part |
| ProtocolIds.EmptyRootKeyIsLeaf | src/entity.rs:37-40 | in a tree built through IDs the empty root key is never a branch |
| ProtocolIds.RunsAreReachable | src/entity.rs:37-52 | every run of protocol inserts and removes stays within the trees for which listing is complete |
| ProtocolIds.ListingFindsEveryLeaf | src/entity.rs:54-66 | the listing has each leaf once, in order, under distinct IDs, and each ID looks its own link up |
| ProtocolIds.IterationIsComplete | src/entity.rs:61-66 | listing and looking up again loses no link |
| ProtocolIds.CollectIds | src/entity.rs:121-133 | the in-place walk appends exactly the listed IDs |
| ProtocolIds.KindTree.InsertProtocol | src/entity.rs:36-40 | the tree's links become those of the flat insertion |
| ProtocolIds.KindTree.RemoveProtocol | src/entity.rs:48-52 | the tree's links become those of the flat removal; the flag says whether they changed |
| ProtocolIds.KindTree.GetProtocol | src/entity.rs:42-46 | lookup answers the stored link of the ID's path, if any |
| ProtocolIds.KindTree.IterProtocols | src/entity.rs:61-66 | iteration yields every stored link under its own ID, in order |
| Acl.CheckFull | src/acl.rs:97-160 | the two loops decide exactly the order-free rule `Granted`, for every order of the map and every resolver |
| Acl.ExactEntryDecides | src/acl.rs:250-290 | a principal with an entry of its own is judged by that entry alone, however narrow, everybody else by the `*` entry |
| Acl.DenyRefuses | src/acl.rs:107-117 | a denied principal is refused, and when `*` is denied, everybody |
| Acl.GroupsDecideTheRest | src/acl.rs:125-160 | without a pass of its own a principal gets in exactly through a group that allows what is asked, if no group of its own is denied |
| Acl.MembersAreNormalised | src/acl.rs:125-155 | membership compares normalised members; an unresolved group has none |
| Acl.DenyNeverGrants | src/acl.rs:107-117 | turning any entry into Deny never turns a refusal into a grant |
| Acl.GroupAllowNeverRefuses | src/acl.rs:137-155 | adding or widening an Allow for a group other than the caller's own principal never loses a grant |
| Acl.OwnEntryShadowsWildcard | src/acl.rs:271-279 | for the caller's own principal it can: an exact entry shadows the wildcard |
| Acl.MoreCapsNeverRefuse | src/acl.rs:119-124 | asking for more capabilities never loses a grant |
| Acl.GroupDenyWinsIffNothingPassesDirectly | src/acl.rs:119-136 | a group deny wins if and only if no requested capability passes the direct check |
| Acl.DeniedGroupMemberGetsIn | src/acl.rs:119-136 | a member of a denied group who is let in through the wildcard |
| Acl.InjectedOwnersChangeNoDecision | src/acl.rs:40-50 | the injected owners entry is cosmetic: it changes no decision when the resolver knows no such group |
| Acl.ActorGroupMembership | src/acl.rs:170-233 | with actor groups the caller belongs to exactly the `+#` groups whose actor says so |
| Acl.OwnersAreShown | src/acl.rs:40-50 | a loaded map shows the owners with every capability, next to exactly what the document says |
| Acl.OwnersAreNormalised | src/acl.rs:52-59 | owners are compared as normalised principals |
| Ipld.PutGrows | src/kubo.rs:33-67 | storing a block keeps every other block and its identifier |
| Ipld.PinMoves | src/kubo.rs:83-104 | a pin is moved, or set afresh when the old root had none; a needed request that fails leaves the pins alone |
| Bootstrap.PublishInOrder | src/bootstrap.rs:146-162 | kinds are stored and inserted in ID order; it fails exactly when a kind node is refused |
| Bootstrap.PublishEntities | src/bootstrap.rs:164-195 | every entity gets its own link, stored when inline, taken over when given as CID |
| Bootstrap.PublishAcls | src/bootstrap.rs:197-205 | every named ACL is stored under its own name |
| Bootstrap.BuildManifest | src/bootstrap.rs:139-256 | the root resolves to the descriptor's manifest with every part stored; the build fails exactly on a refused block or a failed first pin; pins move as stated |
| Bootstrap.BuildSays | src/bootstrap.rs:146-215 | field by field, what a build stores and links of every kind, entity and access list |
| Bootstrap.RestOfManifest | src/bootstrap.rs:218-237 | a build keeps every setting but the language, which it names if it is bundled, and links the languages |
| Bootstrap.ExportBootstrap | src/bootstrap.rs:263-332 | export succeeds exactly when every link resolves and reads every part off the linked blocks |
| Bootstrap.ExportSays | src/bootstrap.rs:285-332 | field by field, what an export says of every entity and access list |
| RoundTrip.BuiltTreeOfAnyIds | src/bootstrap.rs:146-162 | however IDs are spelled, the built tree has exactly the paths of kinds no other kind is a segment prefix of, each with the last of its kinds in ID order |
| RoundTrip.BuiltTree | src/bootstrap.rs:146-162 | for canonical IDs that is each unshadowed kind under its own ID, with its own node |
| RoundTrip.ExportSaysKinds | src/bootstrap.rs:272-284 | field by field, what an export says of every kind, under its listed ID |
| RoundTrip.ExportNeedsEveryLink | src/bootstrap.rs:263-332 | an export fails if and only if some kind, entity, named ACL or the root ACL cannot be read |
| RoundTrip.ExportUndoesBuild | src/bootstrap.rs:139-332 | exporting a build gives the descriptor back, with the root ACL defaulted and the shadowed kinds gone, and nothing else |
| RoundTrip.RebuildingChangesNothing | src/bootstrap.rs:139-332 | building from the export publishes the same manifest, so also the same root identifier |
| RoundTrip.RebuildOfExport | src/bootstrap.rs:258-332 | re-bootstrapping any exported manifest keeps the ACL links; the entity links if and only if no node has a parent, label or later lifecycle; the kind links if and only if every kind node carries the ID it is listed under |
| Shutdown.SaveAllEntityStates | src/bootstrap.rs:422-472 | the loop with its `continue`s computes the fold of single saves over the registry |
| Shutdown.ShutdownFrame | src/bootstrap.rs:403-486 | for any failures and any order: same names and other fields, no pin moved; a node changes only in state and running-to-stopped, and only where its save, fetch and put all worked; a node in the store from the start is updated exactly then |
| Shutdown.SavedFields | src/bootstrap.rs:422-472 | field by field: a saved node has the new state, is stopped if it was running, and is otherwise the old one; stateless and native entities keep their links; whatever can be saved is |
| Shutdown.OrderShowsIffClash | src/bootstrap.rs:414-472 | two walks of the registry can publish different manifests if and only if some link leads nowhere until another entity's new node lands on it, with a different state to be put in |
| Shutdown.SavingIsOrderFree | src/bootstrap.rs:422-472 | without such a clash any order replaces all links at once |
| Shutdown.ResolvingLinksNeverClash | src/bootstrap.rs:443-454 | so links that resolve, or cannot be fetched at all, make the order invisible |
| Runtime.LoadEntities | src/bootstrap.rs:339-397 | startup registers exactly the entities whose node, kind and module all load, whatever the order |
| Runtime.LoadAclCache | src/main.rs:391-408 | startup caches exactly the named ACLs that could be fetched, with the owners entry |
| Runtime.Daemon.constructor | src/main.rs:329-455 | startup registry, cache, owner list and live root ACL for any set of unreachable blocks, with the native scheduler registered and every configured owner let in |
| Runtime.Daemon.MoveHead | src/rpc.rs:39-57 | fetch, edit, store, move the pin, move the head; any earlier failure changes nothing |
| Runtime.Daemon.WithManifestCrud | src/crud/helpers.rs:92-115 | the same for a structured-data request, which also takes over the owner list of the new manifest, if it holds one |
| Runtime.Daemon.HandleKinds | src/crud/kinds.rs:46-78 | kind upsert and delete as one step of the daemon |
| Runtime.Daemon.HandleConfig | src/crud/config.rs:200-282 | manifest configuration writes and deletes as one step; protected, daemon and unknown keys leave the manifest alone |
| Runtime.Daemon.HandleSetAcl | src/crud/namespaces.rs:56-71 | a named ACL is linked first and cached afterwards |
| Runtime.Daemon.HandleDeleteAcl | src/crud/namespaces.rs:72-83 | a named ACL is unlinked first and dropped from the cache afterwards |
| Runtime.Daemon.HandleSetRootAcl | src/crud/namespaces.rs:105-121 | the root ACL is fetched before the head moves and goes live after |
| Runtime.Daemon.HandleUpsertEntity | src/crud/entities.rs:96-130 | an upsert links the fetched node and only then registers its plugin |
| Runtime.Daemon.RegisterEntityPlugin | src/crud/helpers.rs:149-212 | a plugin is registered exactly when its kind is found and its module loads |
| Runtime.Daemon.HandleDeleteEntity | src/crud/entities.rs:83-95 | a CRUD delete unregisters at once and unlinks if the commit works |
| Runtime.Daemon.HandleSetEntityAcl | src/crud/entities.rs:148-163 | an ACL-field change stores a new node and links it |
| Runtime.Daemon.HandleRequests | src/rpc.rs:246-375 | the creation loop, then the deletion loop, with every skip |
| Runtime.Daemon.HandleClaim | src/status.rs:254-280 | a claim on a runtime without owners makes the claimer the only owner and lets the claimer in, in the live root ACL; any other is refused |
| Runtime.Daemon.SaveOnShutdown | src/main.rs:783-802 | the shutdown save, walking the registry in any order, moves the head when there is one and something is registered |
| Edits.DeleteUnlinks | src/crud/entities.rs:83-95 | a committed delete takes exactly that name out of the head's entities; the registry loses it in any case |
| Edits.UpsertLinks | src/crud/entities.rs:96-130 | an upsert links exactly the given node under the given name; unusable names and unreadable nodes change nothing |
| Edits.AclFieldLinks | src/crud/entities.rs:148-163 | an ACL-field change links a node that differs in that field only; an ACL the manifest does not name is refused |
| Edits.AclLinks | src/crud/namespaces.rs:56-71 | a named ACL is set alone, for a version-1 identifier only |
| Edits.AclUnlinks | src/crud/namespaces.rs:72-83 | a named ACL is removed alone |
| Edits.RootAclLinks | src/crud/namespaces.rs:105-121 | the root ACL is replaced alone, for a readable document under a version-1 identifier only |
| Edits.KindLinks | src/crud/kinds.rs:46-78 | kinds change as the flat map of paths does, alone, for a version-1 identifier only |
| Edits.ConfigWrites | src/crud/config.rs:200-282 | a known setting is written, or any but a protected or daemon one deleted, alone; every other request changes nothing |
| Edits.ShutdownPublishes | src/bootstrap.rs:474-486 | the shutdown save publishes exactly the saved manifest, when anything is registered |
| Edits.RunKeepsEntities | src/crud/helpers.rs:92-115 | after any run the head's entities are the starting ones under the committed links and unlinks |
| Loading.LoadingIs | src/plugin.rs:439-495 | a node loads if and only if its kind is Wasm and its module works; the plugin takes fragment, ACL, parent and statefulness from node and kind; only a failing `init` leaves it in error |
| Loading.CreationRegistersIff | src/rpc.rs:246-298 | a creation registers its fragment, as a child of the creator, if and only if the kind is known, it loads and `init` does not fail; otherwise it leaves no trace |
| Loading.CreationLinksIff | src/rpc.rs:280-298 | it is linked in the head, as a running child, if and only if node and manifest can be stored as well |
| Loading.StartingCreationsRegister | src/rpc.rs:246-340 | a dispatch registers exactly the creations that start; one that fails stops no other |
| Loading.DeletionSucceedsIff | src/rpc.rs:343-375 | a deletion removes exactly its target if and only if it is the caller or its child and has no children |
| Loading.RequestedIsRemoved | src/rpc.rs:343-375 | whatever else is requested with it, an entity the caller is entitled to delete is gone after the dispatch |
| Loading.DispatchDoesWhatItIsAsked | src/rpc.rs:246-375 | the same of a whole dispatch: what starts is registered, what may go goes |
| Loading.RegistersIff | src/crud/helpers.rs:149-212 | registering puts in the node's plugin, in place of any older one, if and only if its kind is found, in the registry of kinds or through the head, and it loads |
| Loading.UpsertRegisters | src/crud/entities.rs:96-130 | a committed upsert registers the plugin of the node it links |
| Loading.StartupLoadsIff | src/bootstrap.rs:355-395 | startup registers exactly the entities whose node, kind and module can be had, each as the plugin of its own node |
| Startup.Start | src/main.rs:329-455 | whatever cannot be fetched, the invariants of the runs below hold of the started daemon; the parent forest, if the stored nodes describe one, exactly when the parents of all loaded entities are loaded |
| Head.CommitMoves | src/crud/helpers.rs:92-115 | a commit goes through exactly when the head is fetched and the result stored, and is then one move |
| Head.CreateOneMoves | src/rpc.rs:39-57 | persisting a created entity is one move, and its failures leave the head alone |
| Head.ShutdownMoves | src/bootstrap.rs:403-486 | the shutdown save is one move |
| Head.RunIsLinear | src/crud/helpers.rs:92-115 | over any run with any failures the head resolves and has made exactly the committed moves in order; the store only grew |
| Head.HeadIsFoldOfEdits | src/crud/helpers.rs:92-115 | the manifest behind the head is the starting one with every committed edit applied in order |
| Head.RunKeepsKinds | src/crud/kinds.rs:56-78 | after any run the head's kinds are the starting ones under the committed upserts and deletes |
| Head.OnlyHeadPinned | src/kubo.rs:83-104 | with no failed pin call the head is pinned and, of everything pinned at the start, exactly what never was the head |
| Head.RunPinsOnlyHead | src/kubo.rs:83-104 | the same for a run of the daemon |
| Head.NextSuccessPinsHead | src/kubo.rs:98-102 | after any failures the next successful pin call pins the head of that moment, through the fallback if need be |
| Head.WorkingPinPinsHead | src/kubo.rs:83-104 | one move with both pin requests working has the head pinned, whatever failed before |
| Head.PinsAreKeptHeads | src/kubo.rs:83-104 | whatever was pinned at the start: exactly which roots are pinned after any pattern of failed pin calls, also in a lineage that returns to an earlier manifest |
| Head.RunPins | src/kubo.rs:83-104 | the same for a run of the daemon |
| AclCache.StartupHolds | src/main.rs:391-408 | after startup cache and head differ at most at the ACLs that could not be fetched, which are all of them when the manifest could not |
| AclCache.RunKeepsCache | src/crud/namespaces.rs:57-83 | after any run the cache holds the documents of the last successful fetches, and those agree with the head but for missed names |
| AclCache.OnlyMissedNamesCanDiffer | src/crud/helpers.rs:132-147 | a failed fetch can spoil only its own name |
| AclCache.CachedIsSomeLinkedDocument | src/crud/helpers.rs:132-147 | whatever is cached was linked under that name at the start or by a write that went through |
| AclCache.AllFetchedIsCoherent | src/crud/namespaces.rs:57-83 | if every fetch succeeds, a name is cached if and only if the head names it, with the linked document |
| AclCache.GateReadsTheManifest | src/rpc.rs:166-210 | where the cache is coherent the verb gate decides as if it read the linked document itself |
| AclCache.VerbGate | src/rpc.rs:166-210 | the gate refuses without a cached ACL and otherwise decides by the rule, for the verb or `*` |
| AclCache.GateCallerIs | src/rpc.rs:183-189 | a sender on this runtime is known by its bare fragment, every other by its own name |
| RootAcl.StartupOrigin | src/main.rs:379-443 | the live root ACL starts as the linked document, or empty if that is out of reach, with the owners let in |
| RootAcl.StartupLoadsIff | src/main.rs:375-390 | the document is live from the start if and only if everything on the way to it can be fetched |
| RootAcl.RunKeepsRootAcl | src/crud/namespaces.rs:105-121 | over any run, whatever fails, it is the document behind the head, once made live, with the owners let in since |
| RootAcl.GrantsLastUntilReplaced | src/status.rs:335-342 | an owner, configured or by an accepted claim, is let in exactly until the next write to the root ACL that goes through; from the first such write on the document is live |
| RootAcl.LiveIsDocumentIff | src/main.rs:439-443 | it equals the document if and only if everybody let in may do everything by the document too, and the document was made live or names nobody else |
| RootAcl.OthersAreJudgedByDocument | src/crud/mod.rs:60-69 | a caller who was not let in is judged as the document behind the head says |
| RootAcl.OwnerPassesUnlessAllDenied | src/crud/entities.rs:16-31 | one who was let in passes if and only if `*` is not denied |
| Owners.StepOwners | src/crud/helpers.rs:104-112 | one event replaces the owner list by that of the manifest it commits, makes it the claimer alone, or leaves it |
| Owners.OwnersAreListed | src/crud/helpers.rs:107-111 | a committed request leaves the texts listed under `owners` in the manifest, if that is a list |
| Runtime.TextsConcat | src/crud/helpers.rs:107-111 | the texts of a list come out in order, everything else in it is passed over |
| Owners.ClaimsWinIff | src/status.rs:254-280 | a claim makes the claimer the owner and lets the claimer in, if and only if there is no owner |
| Owners.RunOwners | src/crud/helpers.rs:104-112 | over any run the owner list is the one of the last event that changed it |
| Owners.OwnerAfterRunIff | src/acl.rs:56-59 | who is an owner after any run: an owner from the start if nothing changed the list, or somebody on the list the last change left |
| Owners.OwnerStaysIff | src/crud/mod.rs:60-69 | while nobody writes the list of the manifest, an owner stays one if and only if that list is absent or names the owner, no request was committed, or the owner claimed again after the last one |
| Owners.TransportGate | src/crud/mod.rs:60-69 | the gate in front of structured-data requests, and of messages from elsewhere to plugins (src/rpc.rs:66-75): owners bypass the ACL, everybody else is decided by the rule without groups |
| Owners.PassesAfterRootWriteIff | src/crud/namespaces.rs:105-121 | after a write to the root ACL a caller passes if and only if the list of the manifest, or without one the old list, names the caller, or the new document lets the caller in |
| Owners.OwnerLocksOut | src/status.rs:348-390 | on a minimal manifest the only owner is refused after publishing an empty root ACL, and the next claim wins |
| Inclusion.RunIncluded | src/rpc.rs:281-298 | after any run each registered Wasm entity is named in the head manifest unless its own creation was never persisted |
| Inclusion.StartupIncluded | src/bootstrap.rs:355-395 | the startup registry needs no exception |
| Inclusion.CreatedEntityAgrees | src/rpc.rs:260-302 | registry and stored node describe a persisted creation alike; a failed `init` leaves no trace |
| Inclusion.AclNameReachesPluginIff | src/crud/entities.rs:234-254 | an ACL-field change reaches the loaded plugin if and only if the name does not change |
| Hierarchy.NoCycles | src/rpc.rs:260-268 | nobody is its own proper ancestor |
| Hierarchy.ForestIff | src/rpc.rs:260-268 | a forest is exactly a registry with registered parents and without cycles |
| Hierarchy.StartedForestIff | src/bootstrap.rs:339-397 | if the stored nodes describe a forest, startup builds one if and only if it loads the parent of everybody it loads |
| Hierarchy.LostParentBreaksForest | src/bootstrap.rs:355-395 | it does not when the node of a parent is out of reach and its child loads |
| Hierarchy.SetKeepsForestIff | src/crud/helpers.rs:188-198 | registering an entity, new or in place of an old one, keeps walking up finite if and only if its parent is registered and neither the entity nor below it |
| Hierarchy.AddKeepsForestIff | src/rpc.rs:260-284 | for a new fragment that is: if and only if its parent is registered |
| Hierarchy.RemoveKeepsForestIff | src/rpc.rs:362-373 | a removal does if and only if the entity has no children |
| Hierarchy.UpsertKeepsForestIff | src/crud/entities.rs:96-130 | an upsert that registers a plugin keeps the forest if and only if the node's parent fits |
| Hierarchy.DeleteKeepsForestIff | src/crud/entities.rs:83-95 | a CRUD delete keeps the forest if and only if the entity has no children |
| Hierarchy.DispatchKeepsForest | src/rpc.rs:246-375 | with new fragments a dispatch keeps the forest, adds only children of the caller and removes only requested, childless entities that are the caller or its children |
| Hierarchy.DispatchKeepsForestIff | src/rpc.rs:246-375 | whatever its fragments and deletions, a dispatch keeps the forest if and only if nothing it registers takes the fragment of the caller or of one of its ancestors |
| Hierarchy.RunKeepsForestIff | src/rpc.rs:246-375 | from a forest, walking up ends throughout a run if and only if every event of it is tame where it happens |
| Register.ApplyRefines | plugins/register/src/lib.rs:131-197 | every write keeps the two maps inverse and is exactly the write on pairs |
| Register.WritersAre | plugins/register/src/lib.rs:22-31 | the plugin itself and its parent may write |
| Register.VerbsWrite | plugins/register/src/lib.rs:131-197 | what each write verb does to the pairs |
| Register.NothingElseWrites | plugins/register/src/lib.rs:131-199 | other callers, other verbs and wrong arguments change nothing |
| Register.AnswersByKey | plugins/register/src/lib.rs:104-121 | on an inverse index the read verbs that take a key answer about its pairs |
| Register.AnswersByValue | plugins/register/src/lib.rs:112-128 | and so do those that take a value |
| Register.MutualInversesHaveSameSize | plugins/register/src/lib.rs:9-13 | inverse maps have equal size |
| Register.RunStaysInverse | plugins/register/src/lib.rs:80-201 | any sequence of calls by anyone keeps the index two-way |
| Register.WriteRepairsIff | plugins/register/src/lib.rs:53-57 | a loaded snapshot is not checked; a write leaves an inverse index behind if and only if what it does not touch is inverse |
| Register.ClearRepairs | plugins/register/src/lib.rs:190-196 | so clearing repairs everything |
| Register.DamagedPair | plugins/register/src/lib.rs:131-155 | a pair in one map only is repaired by setting its key and by no other pair |
| Register.Register.HandleCall | plugins/register/src/lib.rs:63-205 | replies, permission and argument checks, the new maps and the saved snapshot of every call |
| PluginState.StateIsHistory | src/plugin.rs:121-154 | pending and persisted are exactly what the run's own writes and saves say; dirty holds if and only if something different was written since something was stored |
| PluginState.StoredIsLastWriteIffFaithful | src/plugin.rs:145-154 | a save stores the last write if and only if that write differs from the persisted bytes or none does |
| PluginState.CleanMeansSaved | src/plugin.rs:578-629 | in a run of such windows a clean flag means nothing is pending and the last write is stored, whatever saves fail |
| PluginState.OneWritePerWindowIsFaithful | src/plugin.rs:145-154 | at most one write between takes makes every window such a window |
| PluginState.UnfaithfulWindowLosesTheLastWrite | src/plugin.rs:145-154 | any other window, once saved, ends clean with different bytes stored |
| PluginState.RevertInOneDispatchIsLost | src/plugin.rs:145-154 | such a window: write something new, then the stored bytes again |
| PluginState.StateCtx.SetState | src/plugin.rs:145-154 | the host function as one step |
| PluginState.StateCtx.Save | src/plugin.rs:611-628 | taking the pending bytes and recording a successful upload as one step |
| PluginState.RequestQueues.Dispatch | src/plugin.rs:550-573 | a dispatch hands out and empties both queues only when the export returned |
| PluginState.RequestsAreConserved | src/plugin.rs:550-573 | no queued request is lost, repeated or reordered, however many calls fail |
| Publisher.Publisher.OnTick | src/main.rs:482-576 | one round of the loop: what is recorded, and that both publishes are tried or neither |
| Publisher.TriesIff | src/main.rs:482-527 | both publishes are tried if and only if there is a valid head that is new or older than the warm period, and the document can be put together |
| Publisher.RecordsIff | src/main.rs:487-492 | a tick on which nothing fails is recorded if and only if the head changed or the warm period has passed |
| Publisher.FailuresRecordNothing | src/main.rs:572-575 | any failure leaves the record alone |
| Publisher.UnchangedHeadIsRepublished | src/main.rs:487-492 | once the warm period has passed, the next working tick publishes an unchanged head again |
| Publisher.RecordIsLastCompleteTick | src/main.rs:476-577 | the record is exactly the last tick that completed both publishes |
| Publisher.RecordedHeadWasPublished | src/main.rs:476-577 | a recorded head was published to both places by one tick |
| Publisher.SettledHeadGetsRecorded | src/main.rs:487-492 | once the head has settled, one tick without failure records it for good |
| Publisher.WarmPeriodLimitsPublishes | src/main.rs:488-492 | an unchanged head is published completely at most once per warm period; ticks on which one of the two publishes fails are not limited |
| Publisher.FailuresAreRetriedEveryTick | src/main.rs:488-572 | a due head stays due over any number of failing ticks, so every later tick tries again |
| Duration.ParseDuration | src/schedule.rs:213-241 | the parser answers by the grammar alone: the sum of the terms, wrapped at 2^64 or stopped there, and a rejection otherwise |
| Duration.OneReading | src/schedule.rs:216-233 | a string is cut into terms in one way only |
| Duration.RightAnswersAre | src/schedule.rs:233-241 | no meaning or none above zero is rejected, below 2^64 it is the answer, and from there on it stops or wraps |
| Duration.UnitsAre | src/schedule.rs:224-231 | one number with one unit is a duration for exactly seconds, minutes, hours and days |
| Duration.ConcatenationAdds | src/schedule.rs:209-213 | writing two durations one after the other adds them |
| Duration.CanonicalReadsBack | src/schedule.rs:209-213 | the usual rendering of any number of seconds below 2^64 reads back |
| CrudPath.PrintedPathParsesBack | src/crud/helpers.rs:14-29 | printing and parsing an address are inverse on exactly the non-empty, dot-free parts |
| CrudPath.ReprintingIsStable | src/crud/helpers.rs:14-29 | re-printing an accepted address parses to the same one |
| CrudPath.EncodedOpDecodesBack | src/crud/helpers.rs:41-80 | a request survives the wire unless it writes to a path spelled like a verb |
| CrudPath.LoweringIsInjective | src/crud/mod.rs:81-101 | operations are lowered to different path, tail and arguments |
| CrudPath.AddressIff | src/crud/helpers.rs:14-22 | a path is an address if and only if a colon and a namespace begin it |
| CrudPath.SegmentsOf | src/crud/helpers.rs:14-29 | the namespace ends at the first dot, and the non-empty parts after it are the segments |
| CrudPath.PayloadsReachHandlers | src/crud/mod.rs:81-117 | what the three kinds of payload reach a handler as, for every namespace |
| CrudPath.OtherPayloadsAreRefused | src/crud/helpers.rs:41-80 | no other payload, path or namespace reaches one |
| CrudPath.RequestsMeetIff | src/crud/mod.rs:81-117 | two accepted payloads reach a handler alike if and only if they ask for the same action with the same value and their addresses print back alike |
| CrudPath.CanonicalPayloadMeets | src/crud/mod.rs:81-117 | every accepted payload reaches its handler as its canonical spelling does |
| CrudPath.SharedCanonicalPayload | src/crud/mod.rs:81-117 | two accepted payloads meet if and only if they share that spelling |
| CrudPath.DifferentPayloadsMeet | src/crud/helpers.rs:23-27 | different payloads that meet: with an empty segment more, and, for the root ACL, with any segment more |

## Left out

- Kubo HTTP, the iroh transport, signatures, DID resolution and IPNS keys: only their outcomes appear.
- Wasm execution and the CBOR and YAML bytes: a plugin's behaviour is arbitrary, encoding is lossless.
- Locks and concurrent scheduled dispatch (src/schedule.rs:249-318): it discards queued requests and can interleave saves; the model is serial.
- The status server (src/status.rs): a claim is one step, its check included, although the code checks and writes under separate locks; the configuration file it also writes does not appear.
- Reply messages, localisation, the statistics kept beside the head, and daemon settings that are not in the manifest.
- The other plugins (set, counter, root): simpler than the register.
- Access checks in front of the handlers: `Runtime.Step` takes requests that passed them.
- The link from a saved plugin state to the manifest on the RPC path: the code drops that CID (src/rpc.rs:235-239), so nothing is claimed about state surviving a restart.
- Trie.InsertRefines: nested maps are values here, not maps updated in place behind references; the class `ProtocolIds.KindTree` replaces its root.
- Inclusion.RunIncluded: one direction; a fragment that happens to be named already is listed as an exception although it needs none.
- Register.Register.HandleCall: the snapshot is taken after the maps change; that the code borrows the state a second time meanwhile is not modelled.
- PluginState.CleanMeansSaved: for serial runs only.
- PluginState.RequestsAreConserved: up to the hand-out. A scheduled dispatch (src/schedule.rs:249-318) and the group query of an ACL (src/acl.rs:215) throw away what they are handed, including requests that an earlier failed call left queued.
- CrudPath.PrintedPathParsesBack: the table of namespaces and the per-namespace patterns are not modelled beyond the handlers of `Runtime` and the dispatch in `CrudPath`.
