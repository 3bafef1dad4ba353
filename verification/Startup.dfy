/** What the daemon has when it starts (src/main.rs): the statements about runs
    begin here. */
module Startup {
  import opened Text
  import opened Ipld
  import opened Plugins
  import Acl
  import opened Runtime
  import Head
  import Inclusion
  import AclCache
  import RootAcl
  import Hierarchy

  /** Whatever cannot be fetched during startup, every invariant of the runs holds
      of the started daemon. */
  method Start(kubo: Kubo, head: Option<Cid>, kinds: map<string, KindNode>, owners: seq<string>,
               downAtLoad: set<Cid>, downAtCache: set<Cid>, wasm: string -> Wasm, schedulerAcl: string)
    returns (d: Daemon)
    requires kubo.Valid() && (head.Some? ==> kubo.GetManifest(head.value).Some?)
    ensures fresh(d) && d.owners == owners && Head.Inv(d.Value()) && Inclusion.Included(d.Value(), {})
    ensures var missed, links := AclCache.StartupMissed(d.Value(), downAtCache), AclCache.Links(d.Value());
      AclCache.Holds(d.Value(), links - missed) && AclCache.Agree(links - missed, links, missed)
    ensures RootAcl.ComesFrom(d.Value(), RootAcl.Origin(LoadedRootAcl(kubo, head, downAtCache).Some?, Acl.Members(owners)))
    ensures HeadManifest(d.Value()).None? ==> Hierarchy.Forest(d.registry)
    ensures HeadManifest(d.Value()).Some? && Hierarchy.Forest(Hierarchy.StoredTree(kubo, HeadManifest(d.Value()).value)) ==>
              (Hierarchy.Forest(d.registry) <==> Hierarchy.ParentClosed(d.registry))
  {
    d := new Daemon(kubo, head, kinds, owners, downAtLoad, downAtCache, wasm, schedulerAcl);
    ghost var s := d.Value();
    AclCache.StartupHolds(s, downAtCache);
    RootAcl.StartupOrigin(s, owners, downAtCache);
    if HeadManifest(s).Some? && head.value !in downAtLoad {
      Inclusion.StartupIncluded(s, downAtLoad, wasm, schedulerAcl);
      if Hierarchy.Forest(Hierarchy.StoredTree(kubo, HeadManifest(s).value)) {
        Hierarchy.StartedForestIff(kubo, downAtLoad, HeadManifest(s).value, wasm, schedulerAcl);
      }
    } else {
      Hierarchy.OnlyScheduler(schedulerAcl);
    }
  }
}
