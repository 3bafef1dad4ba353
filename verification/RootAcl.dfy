/** The live root ACL (src/main.rs, src/status.rs, src/crud/namespaces.rs): the
    document behind the head, and the owners let in since it was made live. */
module RootAcl {
  import opened Text
  import opened Ipld
  import opened Plugins
  import Acl
  import opened Runtime
  import opened Head
  import AclCache

  /** The document the head links as root ACL. */
  function RootDoc(s: State): Option<Acl.AclMap> {
    match HeadManifest(s)
    case Some(m) => if m.acl.Some? then s.kubo.GetAcl(m.acl.value) else None
    case None => None
  }

  /** Whether that document was made live, and who was let in on top of it. */
  datatype Origin = Origin(live: bool, owners: set<string>)

  ghost predicate ComesFrom(s: State, o: Origin) {
    && (o.live ==> RootDoc(s).Some?)
    && s.rootAcl == Acl.WithOwners(if o.live then Acl.InjectOwners(RootDoc(s).value) else map[], o.owners)
  }

  /** A write to the root ACL that goes through. */
  predicate Replaces(s: State, e: Event) {
    e.SetRootAcl? && IsCidV1(e.cid) && LoadAcl(s.kubo, e.cid, e.fetchOk).Some? && Commits(s, e.net)
  }

  /** A claim goes through while nobody owns the runtime. */
  predicate Claims(s: State, e: Event) { e.Claimed? && s.owners == [] }

  function Next(s: State, o: Origin, e: Event): Origin {
    if Replaces(s, e) then Origin(true, {})
    else if Claims(s, e) then o.(owners := o.owners + {e.owner})
    else o
  }

  function RunOrigin(s: State, o: Origin, es: seq<Event>): Origin
    decreases |es|
  {
    if es == [] then o else
      var before := es[..|es| - 1];
      Next(Run(s, before), RunOrigin(s, o, before), es[|es| - 1])
  }

  // ── Startup ─────────────────────────────────────────────────────────────────

  /** What startup makes of it, whatever cannot be fetched. */
  lemma StartupOrigin(s: State, owners: seq<string>, down: set<Cid>)
    requires s.rootAcl == Acl.WithOwners(match LoadedRootAcl(s.kubo, s.head, down) case Some(doc) => doc case None => map[],
                                         Acl.Members(owners))
    ensures ComesFrom(s, Origin(LoadedRootAcl(s.kubo, s.head, down).Some?, Acl.Members(owners)))
  {}

  /** The document is made live at startup if and only if everything on the way to it
      is in reach. */
  lemma StartupLoadsIff(k: Kubo, head: Cid, down: set<Cid>, m: Manifest)
    requires k.GetManifest(head) == Some(m)
    ensures var ok := head !in down && m.acl.Some? && m.acl.value !in down && k.GetAcl(m.acl.value).Some?;
      LoadedRootAcl(k, Some(head), down) == if ok then Some(Acl.InjectOwners(k.GetAcl(m.acl.value).value)) else None
  {}

  // ── One event ───────────────────────────────────────────────────────────────

  lemma EditKeepsRootAcl(e: Edit, m: Manifest)
    requires !e.SetRootAclLink?
    ensures ApplyEdit(e, m).acl == m.acl
  {}

  lemma {:induction false} OtherEditsKeepRootAcl(m: Manifest, mvs: seq<Move>)
    requires forall i :: 0 <= i < |mvs| ==> !mvs[i].edit.SetRootAclLink?
    ensures FoldEdits(m, mvs).acl == m.acl
    decreases |mvs|
  {
    if mvs != [] {
      var before := mvs[..|mvs| - 1];
      OtherEditsKeepRootAcl(m, before);
      EditKeepsRootAcl(mvs[|mvs| - 1].edit, FoldEdits(m, before));
    }
  }

  lemma OtherEventsKeepRootAcl(s: State, e: Event)
    requires !e.SetRootAcl? && !e.Claimed?
    ensures Step(s, e).rootAcl == s.rootAcl
  {
    EventFrame(s, e);
    hide Step;
  }

  lemma OtherMovesKeepRootAcl(s: State, e: Event)
    requires !e.SetRootAcl?
    ensures forall i :: 0 <= i < |MovesOf(s, e)| ==> !MovesOf(s, e)[i].edit.SetRootAclLink?
  {
    if e.Dispatch? && e.caller in s.registry {
      AclCache.CreationsLinkEntities(s, s.registry[e.caller], e.creates);
    }
  }

  lemma OtherEventsKeepRootDoc(s: State, e: Event)
    requires Inv(s) && !e.SetRootAcl? && RootDoc(s).Some?
    ensures RootDoc(Step(s, e)) == RootDoc(s)
  {
    StepMoves(s, e);
    OtherMovesKeepRootAcl(s, e);
    MovedFold(s, MovesOf(s, e), Step(s, e));
    OtherEditsKeepRootAcl(HeadManifest(s).value, MovesOf(s, e));
  }

  lemma ReplacedOrigin(s: State, cid: Cid, fetchOk: bool, net: Net, o: Origin)
    requires Inv(s) && ComesFrom(s, o)
    ensures ComesFrom(OnSetRootAcl(s, cid, fetchOk, net), Next(s, o, SetRootAcl(cid, fetchOk, net)))
  {
    var (t, ok) := CommitCrud(s, SetRootAclLink(cid), net);
    CrudEdits(s, SetRootAclLink(cid), net);
    hide Commit, CommitCrud, Inv, Grows;
    if ok {
      assert RootDoc(t) == t.kubo.GetAcl(cid);
      assert LoadAcl(s.kubo, cid, fetchOk).Some? ==> t.kubo.GetAcl(cid) == s.kubo.GetAcl(cid);
    }
  }

  lemma LetIn(acl: Acl.AclMap, owners: set<string>, owner: string)
    ensures Acl.WithOwners(Acl.WithOwners(acl, owners), {owner}) == Acl.WithOwners(acl, owners + {owner})
  {}

  lemma StepKeepsOrigin(s: State, o: Origin, e: Event)
    requires Inv(s) && ComesFrom(s, o)
    ensures ComesFrom(Step(s, e), Next(s, o, e))
  {
    match e {
      case SetRootAcl(cid, fetchOk, net) => ReplacedOrigin(s, cid, fetchOk, net, o);
      case Claimed(owner) => LetIn(if o.live then Acl.InjectOwners(RootDoc(s).value) else map[], o.owners, owner);
      case _ =>
        OtherEventsKeepRootAcl(s, e);
        if o.live {
          OtherEventsKeepRootDoc(s, e);
        }
    }
  }

  // ── Runs ────────────────────────────────────────────────────────────────────

  /** After any run, whatever fails, the live root ACL is the document behind the
      head, once it was made live, with the owners let in since. */
  lemma {:induction false} RunKeepsRootAcl(s: State, o: Origin, es: seq<Event>)
    requires Inv(s) && ComesFrom(s, o)
    ensures ComesFrom(Run(s, es), RunOrigin(s, o, es))
    decreases |es|
  {
    if es != [] {
      var before := es[..|es| - 1];
      RunKeepsRootAcl(s, o, before);
      RunIsLinear(s, before);
      StepKeepsOrigin(Run(s, before), RunOrigin(s, o, before), es[|es| - 1]);
    }
  }

  ghost predicate ReplacesAt(s: State, es: seq<Event>, i: int)
    requires 0 <= i < |es|
  {
    Replaces(Run(s, es[..i]), es[i])
  }

  /** No write to the root ACL goes through from here to the end of the run. */
  ghost predicate Untouched(s: State, es: seq<Event>, from: int)
    requires 0 <= from
  {
    forall i :: from <= i < |es| ==> !ReplacesAt(s, es, i)
  }

  ghost predicate ClaimedAt(s: State, es: seq<Event>, j: int, owner: string) {
    0 <= j < |es| && es[j] == Claimed(owner) && Claims(Run(s, es[..j]), es[j]) && Untouched(s, es, j)
  }

  /** Owners stay let in exactly until the next write to the root ACL that goes
      through, and from the first one on the document is live. */
  lemma {:induction false} GrantsLastUntilReplaced(s: State, o: Origin, es: seq<Event>, owner: string)
    ensures RunOrigin(s, o, es).live <==> o.live || !Untouched(s, es, 0)
    ensures owner in RunOrigin(s, o, es).owners <==>
              (owner in o.owners && Untouched(s, es, 0)) || ClaimedOnce(s, es, owner)
    decreases |es|
  {
    if es != [] {
      var n := |es| - 1;
      var before, e := es[..n], es[n];
      GrantsLastUntilReplaced(s, o, before, owner);
      OneMoreEvent(s, es, 0);
      OneMoreClaim(s, es, owner);
      assert ReplacesAt(s, es, n) == Replaces(Run(s, before), e);
      hide Untouched, ClaimedAt, Replaces, Run;
    }
  }

  ghost predicate ClaimedOnce(s: State, es: seq<Event>, owner: string) {
    exists j :: ClaimedAt(s, es, j, owner)
  }

  lemma OneMoreClaim(s: State, es: seq<Event>, owner: string)
    requires es != []
    ensures var n := |es| - 1;
      ClaimedOnce(s, es, owner) <==>
        || (es[n] == Claimed(owner) && Claims(Run(s, es[..n]), es[n]))
        || (ClaimedOnce(s, es[..n], owner) && !ReplacesAt(s, es, n))
  {
    var n := |es| - 1;
    var before, e := es[..n], es[n];
    hide Replaces, Run, Claims;
    forall j | 0 <= j < n
      ensures ClaimedAt(s, es, j, owner) <==> ClaimedAt(s, before, j, owner) && !ReplacesAt(s, es, n)
    {
      assert before[..j] == es[..j];
      OneMoreEvent(s, es, j);
    }
    assert ClaimedAt(s, es, n, owner) <==> e == Claimed(owner) && Claims(Run(s, before), e) && !ReplacesAt(s, es, n);
    assert e == Claimed(owner) ==> !ReplacesAt(s, es, n) by { ClaimsReplaceNothing(s, es, owner); }
    if j :| ClaimedAt(s, before, j, owner) {
      assert ReplacesAt(s, es, n) || ClaimedAt(s, es, j, owner);
    }
  }

  lemma ClaimsReplaceNothing(s: State, es: seq<Event>, owner: string)
    requires es != []
    ensures es[|es| - 1] == Claimed(owner) ==> !ReplacesAt(s, es, |es| - 1)
  {}

  lemma OneMoreEvent(s: State, es: seq<Event>, from: int)
    requires es != [] && 0 <= from < |es|
    ensures var n := |es| - 1; Untouched(s, es, from) <==> Untouched(s, es[..n], from) && !ReplacesAt(s, es, n)
  {
    var n := |es| - 1;
    forall i | from <= i < n ensures ReplacesAt(s, es[..n], i) <==> ReplacesAt(s, es, i) {
      assert es[..n][..i] == es[..i];
    }
  }

  // ── What the live ACL decides ───────────────────────────────────────────────

  /** It is the document, owners entry included, if and only if everybody let in
      may do everything by the document too, and the document was made live or
      says nothing about anybody else. */
  lemma LiveIsDocumentIff(s: State, o: Origin)
    requires ComesFrom(s, o) && RootDoc(s).Some?
    ensures var doc := Acl.InjectOwners(RootDoc(s).value);
      s.rootAcl == doc <==>
        && (forall p :: p in o.owners ==> p in doc && doc[p] == Acl.EVERYTHING)
        && (o.live || doc.Keys <= o.owners)
  {
    var doc := Acl.InjectOwners(RootDoc(s).value);
    if s.rootAcl == doc {
      forall p | p in o.owners ensures p in doc && doc[p] == Acl.EVERYTHING {
        assert p in s.rootAcl;
      }
    }
  }

  /** The gates of the transports expand no group. */
  function NoGroups(): Acl.Resolver { group => Some([]) }

  lemma NobodyIsMember(principal: string, norm: string -> string, group: string)
    ensures !Acl.IsMember(group, principal, norm, NoGroups())
  {}

  /** Somebody who was not let in is judged by the document alone. */
  lemma OthersAreJudgedByDocument(s: State, o: Origin, caller: string, caps: seq<string>, norm: string -> string)
    requires ComesFrom(s, o) && o.live
    requires norm(caller) !in o.owners && "*" !in o.owners && norm(caller) != Acl.OWNERS_PRINCIPAL
    ensures var member := Acl.Membership(norm(caller), norm, NoGroups());
      Acl.Granted(s.rootAcl, norm(caller), caps, member) <==> Acl.Granted(RootDoc(s).value, norm(caller), caps, member)
  {
    var doc, principal := RootDoc(s).value, norm(caller);
    var member := Acl.Membership(principal, norm, NoGroups());
    forall g ensures !member(g) { NobodyIsMember(principal, norm, g); }
    forall c ensures Acl.CheckCap(s.rootAcl, principal, c) <==> Acl.CheckCap(doc, principal, c) {}
  }

  /** Somebody who was let in passes unless everybody is denied. */
  lemma OwnerPassesUnlessAllDenied(s: State, o: Origin, principal: string, caps: seq<string>, member: string -> bool)
    requires ComesFrom(s, o) && principal in o.owners && caps != []
    ensures Acl.Granted(s.rootAcl, principal, caps, member) <==> !Acl.Denied(s.rootAcl, "*")
  {
    assert s.rootAcl[principal] == Acl.EVERYTHING;
    assert caps[0] in caps && Acl.CheckCap(s.rootAcl, principal, caps[0]);
  }
}
