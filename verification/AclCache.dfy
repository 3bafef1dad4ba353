/** The cache of named ACLs agrees with the head manifest (src/crud/namespaces.rs,
    src/crud/helpers.rs, src/main.rs), so the verb gate (src/rpc.rs) decides as if
    it read the manifest. */
module AclCache {
  import opened Text
  import opened Ipld
  import opened Plugins
  import Acl
  import opened Runtime
  import opened Head

  /** The links of the head's named ACLs. */
  function Links(s: State): map<string, Cid> {
    match HeadManifest(s)
    case Some(m) => m.acls
    case None => map[]
  }

  /** The cache holds the documents of these links, and nothing else. */
  ghost predicate Holds(s: State, links: map<string, Cid>) {
    && CachesAcls(s.cache, s.kubo, links)
    && forall n :: n in links ==> s.kubo.GetAcl(links[n]).Some?
  }

  /** This name is cached if and only if the head names it, with the linked
      document. */
  ghost predicate CoherentAt(s: State, name: string) {
    && (CacheKey(name) in s.cache <==> name in Links(s))
    && (name in Links(s) ==>
          s.kubo.GetAcl(Links(s)[name]).Some?
          && s.cache[CacheKey(name)] == Acl.InjectOwners(s.kubo.GetAcl(Links(s)[name]).value))
  }

  // ── What the cache holds after each event ───────────────────────────────────

  /** The links whose documents are cached: those of the last successful fetch. */
  function Fetched(s: State, held: map<string, Cid>, e: Event): map<string, Cid> {
    match e
    case SetAcl(name, cid, fetchOk, net) =>
      if IsCidV1(cid) && Commits(s, net) && LoadAcl(Commit(s, SetAclLink(name, cid), net).0.kubo, cid, fetchOk).Some?
      then held[name := cid] else held
    case DeleteAcl(name, net) => if Commits(s, net) then held - {name} else held
    case _ => held
  }

  /** Names whose last committed change could not be fetched. */
  function Missed(s: State, missed: set<string>, e: Event): set<string> {
    match e
    case SetAcl(name, cid, fetchOk, net) =>
      if !IsCidV1(cid) || !Commits(s, net) then missed
      else if LoadAcl(Commit(s, SetAclLink(name, cid), net).0.kubo, cid, fetchOk).Some? then missed - {name}
      else missed + {name}
    case DeleteAcl(name, net) => if Commits(s, net) then missed - {name} else missed
    case _ => missed
  }

  function RunFetched(s: State, held: map<string, Cid>, es: seq<Event>): map<string, Cid>
    decreases |es|
  {
    if es == [] then held else
      var before := es[..|es| - 1];
      Fetched(Run(s, before), RunFetched(s, held, before), es[|es| - 1])
  }

  function RunMissed(s: State, missed: set<string>, es: seq<Event>): set<string>
    decreases |es|
  {
    if es == [] then missed else
      var before := es[..|es| - 1];
      Missed(Run(s, before), RunMissed(s, missed, before), es[|es| - 1])
  }

  // ── One event ───────────────────────────────────────────────────────────────

  predicate KeepsAcls(e: Edit) { !e.SetAclLink? && !e.RemoveAclLink? }

  lemma EditKeepsAcls(e: Edit, m: Manifest)
    requires KeepsAcls(e)
    ensures ApplyEdit(e, m).acls == m.acls
  {}

  lemma {:induction false} OtherEditsKeepAcls(m: Manifest, mvs: seq<Move>)
    requires forall i :: 0 <= i < |mvs| ==> KeepsAcls(mvs[i].edit)
    ensures FoldEdits(m, mvs).acls == m.acls
    decreases |mvs|
  {
    if mvs != [] {
      var before := mvs[..|mvs| - 1];
      OtherEditsKeepAcls(m, before);
      EditKeepsAcls(mvs[|mvs| - 1].edit, FoldEdits(m, before));
    }
  }

  lemma {:induction false} CreationsLinkEntities(s: State, entity: Plugin, creates: seq<Create>)
    ensures forall i :: 0 <= i < |CreateEachMoves(s, entity, creates)| ==>
              CreateEachMoves(s, entity, creates)[i].edit.SetEntityLink?
    decreases |creates|
  {
    if creates != [] {
      CreationsLinkEntities(s, entity, creates[..|creates| - 1]);
    }
  }

  predicate TouchesAcls(e: Event) { e.SetAcl? || e.DeleteAcl? }

  lemma OtherEventsKeepCache(s: State, e: Event)
    requires !TouchesAcls(e)
    ensures Step(s, e).cache == s.cache
  {
    EventFrame(s, e);
    hide Step;
  }

  lemma OtherMovesKeepAcls(s: State, e: Event)
    requires !TouchesAcls(e)
    ensures forall i :: 0 <= i < |MovesOf(s, e)| ==> KeepsAcls(MovesOf(s, e)[i].edit)
  {
    if e.Dispatch? && e.caller in s.registry {
      CreationsLinkEntities(s, s.registry[e.caller], e.creates);
    }
  }

  lemma OtherEventsKeepAcls(s: State, e: Event)
    requires Inv(s) && !TouchesAcls(e)
    ensures Links(Step(s, e)) == Links(s)
  {
    StepMoves(s, e);
    if s.head.Some? {
      OtherMovesKeepAcls(s, e);
      MovedFold(s, MovesOf(s, e), Step(s, e));
      OtherEditsKeepAcls(HeadManifest(s).value, MovesOf(s, e));
    }
  }

  lemma GrowthKeepsCache(s: State, t: State, links: map<string, Cid>)
    requires Holds(s, links) && Grows(s.kubo, t.kubo) && t.cache == s.cache
    ensures Holds(t, links)
  {}

  lemma KeyOf(key: string, name: string)
    ensures IsCacheKey(key) && key[5..] == name <==> key == CacheKey(name)
  {}

  lemma CacheSet(s: State, links: map<string, Cid>, name: string, cid: Cid)
    requires Holds(s, links) && s.kubo.GetAcl(cid).Some?
    ensures Holds(s.(cache := s.cache[CacheKey(name) := Acl.InjectOwners(s.kubo.GetAcl(cid).value)]), links[name := cid])
  {
    forall key ensures IsCacheKey(key) && key[5..] == name <==> key == CacheKey(name) { KeyOf(key, name); }
  }

  lemma CacheDropped(s: State, links: map<string, Cid>, name: string)
    requires Holds(s, links)
    ensures Holds(s.(cache := s.cache - {CacheKey(name)}), links - {name})
  {
    forall key ensures IsCacheKey(key) && key[5..] == name <==> key == CacheKey(name) { KeyOf(key, name); }
  }

  /** Cached links and head links differ at most at the missed names. */
  ghost predicate Agree(held: map<string, Cid>, links: map<string, Cid>, missed: set<string>) {
    forall n :: n !in missed ==> (n in held <==> n in links) && (n in held ==> held[n] == links[n])
  }

  /** After the event the cache again holds what was fetched last. */
  ghost predicate Continues(s: State, held: map<string, Cid>, missed: set<string>, e: Event) {
    && Holds(Step(s, e), Fetched(s, held, e))
    && Agree(Fetched(s, held, e), Links(Step(s, e)), Missed(s, missed, e))
  }

  lemma CommitLinks(s: State, e: Edit, net: Net)
    requires Inv(s) && Commits(s, net)
    ensures Links(CommitCrud(s, e, net).0) == ApplyEdit(e, HeadManifest(s).value).acls
  {
    CrudEdits(s, e, net);
  }

  lemma LinkedAclKeepsCache(t: State, held: map<string, Cid>, links: map<string, Cid>, missed: set<string>, name: string,
                            cid: Cid, fetchOk: bool)
    requires Holds(t, held) && Agree(held, links, missed) && Links(t) == links[name := cid]
    ensures match LoadAcl(t.kubo, cid, fetchOk)
      case None => Holds(t, held) && Agree(held, Links(t), missed + {name})
      case Some(doc) =>
        var u := t.(cache := t.cache[CacheKey(name) := doc]);
        Holds(u, held[name := cid]) && Agree(held[name := cid], Links(u), missed - {name})
  {
    if LoadAcl(t.kubo, cid, fetchOk).Some? {
      CacheSet(t, held, name, cid);
    }
  }

  lemma SetAclKeepsCache(s: State, held: map<string, Cid>, missed: set<string>, name: string, cid: Cid, fetchOk: bool, net: Net)
    requires Inv(s) && Holds(s, held) && Agree(held, Links(s), missed)
    ensures Continues(s, held, missed, SetAcl(name, cid, fetchOk, net))
  {
    var (t, ok) := CommitCrud(s, SetAclLink(name, cid), net);
    CrudEdits(s, SetAclLink(name, cid), net);
    if IsCidV1(cid) && ok {
      GrowthKeepsCache(s, t, held);
      CommitLinks(s, SetAclLink(name, cid), net);
      assert Links(t) == Links(s)[name := cid];
      LinkedAclKeepsCache(t, held, Links(s), missed, name, cid, fetchOk);
    }
    hide Commit, Inv, Grows, Holds, Agree, Links, LoadAcl;
  }

  lemma DeleteAclKeepsCache(s: State, held: map<string, Cid>, missed: set<string>, name: string, net: Net)
    requires Inv(s) && Holds(s, held) && Agree(held, Links(s), missed)
    ensures Continues(s, held, missed, DeleteAcl(name, net))
  {
    var (t, ok) := CommitCrud(s, RemoveAclLink(name), net);
    CrudEdits(s, RemoveAclLink(name), net);
    if ok {
      GrowthKeepsCache(s, t, held);
      CommitLinks(s, RemoveAclLink(name), net);
      CacheDropped(t, held, name);
    }
  }

  lemma StepKeepsCache(s: State, held: map<string, Cid>, missed: set<string>, e: Event)
    requires Inv(s) && Holds(s, held) && Agree(held, Links(s), missed)
    ensures Continues(s, held, missed, e)
  {
    if e.SetAcl? {
      SetAclKeepsCache(s, held, missed, e.name, e.cid, e.fetchOk, e.net);
    } else if e.DeleteAcl? {
      DeleteAclKeepsCache(s, held, missed, e.name, e.net);
    } else {
      OtherEventsKeepAcls(s, e);
      OtherEventsKeepCache(s, e);
      StepMoves(s, e);
      GrowthKeepsCache(s, Step(s, e), held);
    }
  }

  /** Names whose document startup could not fetch: all of them, when it could not
      fetch the manifest. */
  function StartupMissed(s: State, down: set<Cid>): set<string> {
    if HeadManifest(s).None? || s.head.value in down then Links(s).Keys
    else set n | n in Links(s) && s.kubo.Without(down).GetAcl(Links(s)[n]).None?
  }

  /** After startup the cache holds the links that could be fetched; the others
      are the first missed names. */
  lemma StartupHolds(s: State, down: set<Cid>)
    requires Inv(s) && StartupCache(s, down)
    ensures var missed := StartupMissed(s, down);
      Holds(s, Links(s) - missed) && Agree(Links(s) - missed, Links(s), missed)
  {}

  // ── Runs ────────────────────────────────────────────────────────────────────

  lemma {:induction false} RunKeepsCache(s: State, held: map<string, Cid>, missed: set<string>, es: seq<Event>)
    requires Inv(s) && Holds(s, held) && Agree(held, Links(s), missed)
    ensures Inv(Run(s, es)) && Holds(Run(s, es), RunFetched(s, held, es))
    ensures Agree(RunFetched(s, held, es), Links(Run(s, es)), RunMissed(s, missed, es))
    decreases |es|
  {
    if es != [] {
      var before := es[..|es| - 1];
      RunKeepsCache(s, held, missed, before);
      StepKeepsCache(Run(s, before), RunFetched(s, held, before), RunMissed(s, missed, before), es[|es| - 1]);
      RunIsLinear(s, es);
    }
  }

  /** A failed fetch can spoil only its own name: after any run every other name
      is cached exactly as the head links it. */
  lemma OnlyMissedNamesCanDiffer(s: State, held: map<string, Cid>, missed: set<string>, es: seq<Event>, name: string)
    requires Inv(s) && Holds(s, held) && Agree(held, Links(s), missed)
    requires name !in RunMissed(s, missed, es)
    ensures CoherentAt(Run(s, es), name)
  {
    RunKeepsCache(s, held, missed, es);
    CacheKeysAreInjective(name, name);
  }

  /** The i-th event of the run put this link under this name into the head. */
  ghost predicate LinksAt(s: State, es: seq<Event>, i: int, name: string, cid: Cid) {
    0 <= i < |es| && es[i].SetAcl? && es[i].name == name && es[i].cid == cid
    && IsCidV1(cid) && Commits(Run(s, es[..i]), es[i].net)
  }

  /** What a missed name is left with: nothing, or a document that was linked
      under that name before, with the owners entry. */
  ghost predicate EverLinked(s: State, links: map<string, Cid>, es: seq<Event>, name: string, cid: Cid) {
    (name in links && links[name] == cid) || exists i :: LinksAt(s, es, i, name, cid)
  }

  lemma {:induction false} CachedWasLinked(s: State, held: map<string, Cid>, es: seq<Event>, name: string)
    requires name in RunFetched(s, held, es)
    ensures EverLinked(s, held, es, name, RunFetched(s, held, es)[name])
    decreases |es|
  {
    if es != [] {
      var n := |es| - 1;
      var before, cid := es[..n], RunFetched(s, held, es)[name];
      if name in RunFetched(s, held, before) && RunFetched(s, held, before)[name] == cid {
        CachedWasLinked(s, held, before, name);
        if i :| LinksAt(s, before, i, name, cid) {
          assert before[..i] == es[..i];
          assert LinksAt(s, es, i, name, cid);
        }
      } else {
        assert LinksAt(s, es, n, name, cid);
      }
    }
  }

  lemma CachedIsSomeLinkedDocument(s: State, held: map<string, Cid>, missed: set<string>, es: seq<Event>, name: string)
    requires Inv(s) && Holds(s, held) && Agree(held, Links(s), missed)
    requires CacheKey(name) in Run(s, es).cache
    ensures exists cid :: EverLinked(s, held, es, name, cid) && Run(s, es).kubo.GetAcl(cid).Some?
              && Run(s, es).cache[CacheKey(name)] == Acl.InjectOwners(Run(s, es).kubo.GetAcl(cid).value)
  {
    RunKeepsCache(s, held, missed, es);
    CacheKeysAreInjective(name, name);
    CachedWasLinked(s, held, es, name);
  }

  /** If every fetch succeeds, the cache and the head agree at every name. */
  lemma AllFetchedIsCoherent(s: State, es: seq<Event>, name: string)
    requires Inv(s) && Holds(s, Links(s))
    requires forall i :: 0 <= i < |es| && es[i].SetAcl? ==>
               LoadAcl(Commit(Run(s, es[..i]), SetAclLink(es[i].name, es[i].cid), es[i].net).0.kubo, es[i].cid, es[i].fetchOk).Some?
    ensures CoherentAt(Run(s, es), name)
  {
    NothingMissed(s, es);
    OnlyMissedNamesCanDiffer(s, Links(s), {}, es, name);
  }

  lemma {:induction false} NothingMissed(s: State, es: seq<Event>)
    requires forall i :: 0 <= i < |es| && es[i].SetAcl? ==>
               LoadAcl(Commit(Run(s, es[..i]), SetAclLink(es[i].name, es[i].cid), es[i].net).0.kubo, es[i].cid, es[i].fetchOk).Some?
    ensures RunMissed(s, {}, es) == {}
    decreases |es|
  {
    if es != [] {
      var before := es[..|es| - 1];
      forall i | 0 <= i < |before| && before[i].SetAcl?
        ensures LoadAcl(Commit(Run(s, before[..i]), SetAclLink(before[i].name, before[i].cid), before[i].net).0.kubo,
                        before[i].cid, before[i].fetchOk).Some?
      {
        assert before[..i] == es[..i] && before[i] == es[i];
      }
      NothingMissed(s, before);
    }
  }

  // ── The verb gate ───────────────────────────────────────────────────────────

  /** What the gate does: an empty or uncached ACL name refuses. */
  ghost predicate GateByCache(s: State, aclName: string, principal: string, caps: seq<string>, member: string -> bool) {
    && aclName != "" && CacheKey(aclName) in s.cache
    && Acl.Granted(s.cache[CacheKey(aclName)], principal, caps, member)
  }

  /** What it stands for: the document the head links under that name decides. */
  ghost predicate GateByManifest(s: State, aclName: string, principal: string, caps: seq<string>, member: string -> bool) {
    && aclName != "" && aclName in Links(s) && s.kubo.GetAcl(Links(s)[aclName]).Some?
    && Acl.Granted(s.kubo.GetAcl(Links(s)[aclName]).value, principal, caps, member)
  }

  /** Where the cache is coherent, the gate decides as if it read the manifest;
      the injected owners entry makes no difference for actor groups. */
  lemma GateReadsTheManifest(s: State, aclName: string, caller: string, caps: seq<string>, norm: string -> string,
                             contains: string -> Option<bool>)
    requires CoherentAt(s, aclName) && norm(caller) != Acl.OWNERS_PRINCIPAL
    ensures var member := Acl.Membership(norm(caller), norm, Acl.QueryActorGroup(caller, contains));
      GateByCache(s, aclName, norm(caller), caps, member) <==> GateByManifest(s, aclName, norm(caller), caps, member)
  {
    Acl.ActorGroupMembership(caller, contains, norm, Acl.OWNERS_PRINCIPAL);
    if aclName in Links(s) {
      Acl.InjectedOwnersChangeNoDecision(s.kubo.GetAcl(Links(s)[aclName]).value, norm(caller), caps,
        Acl.Membership(norm(caller), norm, Acl.QueryActorGroup(caller, contains)));
    }
  }

  /** A sender on this runtime is known to the gate by its bare fragment. */
  function GateCaller(from: string, ourDid: string): string {
    var prefix := ourDid + "#";
    if |from| >= |prefix| && from[..|prefix|] == prefix then "#" + from[|prefix|..] else from
  }

  /** Nobody else's name is touched: in particular not one that only resembles it. */
  lemma GateCallerIs(from: string, ourDid: string, fragment: string)
    ensures GateCaller(ourDid + "#" + fragment, ourDid) == "#" + fragment
    ensures (forall f: string :: from != ourDid + "#" + f) ==> GateCaller(from, ourDid) == from
  {
    var prefix := ourDid + "#";
    assert (prefix + fragment)[..|prefix|] == prefix && (prefix + fragment)[|prefix|..] == fragment;
    if |from| >= |prefix| && from[..|prefix|] == prefix {
      assert from == prefix + from[|prefix|..];
    }
  }

  method VerbGate(cache: map<string, Acl.AclMap>, aclName: string, from: string, ourDid: string, verb: Option<string>,
                  norm: string -> string, contains: string -> Option<bool>)
    returns (ok: bool)
    ensures ok <==>
      var caller := GateCaller(from, ourDid);
      && aclName != "" && CacheKey(aclName) in cache
      && Acl.Granted(cache[CacheKey(aclName)], norm(caller), [if verb.Some? then verb.value else "*", "*"],
                     Acl.Membership(norm(caller), norm, Acl.QueryActorGroup(caller, contains)))
  {
    if aclName == "" { return false; }
    if CacheKey(aclName) !in cache { return false; }
    var caller := GateCaller(from, ourDid);
    ok := Acl.CheckFull(cache[CacheKey(aclName)], caller, [if verb.Some? then verb.value else "*", "*"], norm,
                        Acl.QueryActorGroup(caller, contains));
  }
}
