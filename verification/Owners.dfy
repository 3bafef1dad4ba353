/** Who owns the runtime (src/status.rs, src/crud/helpers.rs), and what that is
    worth at the gates in front of requests. */
module Owners {
  import opened Text
  import opened Ipld
  import opened Plugins
  import Acl
  import opened Runtime
  import opened Head
  import AclCache
  import opened RootAcl

  // ── What can change the list ────────────────────────────────────────────────

  predicate IsCrud(e: Event) {
    || e.EditKind? || e.EditConfig? || e.SetRootAcl? || e.SetAcl? || e.DeleteAcl?
    || e.UpsertEntity? || e.DeleteEntity? || e.SetEntityAcl?
  }

  /** A structured-data request whose edit is committed. */
  predicate CommitsCrud(s: State, e: Event) { IsCrud(e) && MovesOf(s, e) != [] }

  /** It replaces the list when the new manifest holds one. */
  predicate Replaced(s: State, e: Event) {
    CommitsCrud(s, e) && HeadManifest(Step(s, e)).Some? && OwnersIn(HeadManifest(Step(s, e)).value).Some?
  }

  predicate Changes(s: State, e: Event) { Replaced(s, e) || Claims(s, e) }

  function ListAfter(s: State, e: Event): seq<string>
    requires Changes(s, e)
  {
    if Replaced(s, e) then OwnersIn(HeadManifest(Step(s, e)).value).value else [e.owner]
  }

  /** A committed request takes over the list of the manifest it leaves, and any
      other request leaves the list alone. */
  ghost predicate Follows(s: State, e: Event) {
    if CommitsCrud(s, e)
    then HeadManifest(Step(s, e)).Some? && Step(s, e).owners == OwnersAfter(s.owners, HeadManifest(Step(s, e)).value)
    else Step(s, e).owners == s.owners
  }

  lemma KindRequestOwners(s: State, e: Event)
    requires Inv(s) && e.EditKind?
    ensures Follows(s, e)
  {
    CrudEdits(s, if e.link.Some? then SetKind(e.protocol, e.link.value) else RemoveKind(e.protocol), e.net);
    hide CommitCrud, Inv;
  }

  lemma ConfigRequestOwners(s: State, e: Event)
    requires Inv(s) && e.EditConfig?
    ensures Follows(s, e)
  {
    CrudEdits(s, ConfigEdit(e.key, e.value), e.net);
    hide CommitCrud, Inv;
  }

  lemma RootAclRequestOwners(s: State, e: Event)
    requires Inv(s) && e.SetRootAcl?
    ensures Follows(s, e)
  {
    CrudEdits(s, SetRootAclLink(e.cid), e.net);
    hide CommitCrud, Inv;
  }

  lemma AclRequestOwners(s: State, e: Event)
    requires Inv(s) && e.SetAcl?
    ensures Follows(s, e)
  {
    CrudEdits(s, SetAclLink(e.name, e.cid), e.net);
    hide CommitCrud, Inv;
  }

  lemma DeleteAclRequestOwners(s: State, e: Event)
    requires Inv(s) && e.DeleteAcl?
    ensures Follows(s, e)
  {
    CrudEdits(s, RemoveAclLink(e.name), e.net);
    hide CommitCrud, Inv;
  }

  lemma UpsertRequestOwners(s: State, e: Event)
    requires Inv(s) && e.UpsertEntity?
    ensures Follows(s, e)
  {
    CrudEdits(s, SetEntityLink(e.name, e.cid), e.net);
    hide CommitCrud, Inv, KindFor, LoadPlugin;
  }

  lemma DeleteRequestOwners(s: State, e: Event)
    requires Inv(s) && e.DeleteEntity?
    ensures Follows(s, e)
  {
    CrudEdits(s.(registry := s.registry - {e.name}), RemoveEntityLink(e.name), e.net);
    hide CommitCrud, Inv;
  }

  lemma EntityAclRequestOwners(s: State, e: Event)
    requires Inv(s) && e.SetEntityAcl?
    ensures Follows(s, e)
  {
    var node := AclNode(s, e.name, e.newAcl, e.readOk, e.nodePutOk);
    if node.Some? {
      var block := EntityBlock(node.value);
      PutMovesNothing(s, block);
      CrudEdits(s.(kubo := s.kubo.Put(block)), SetEntityLink(e.name, s.kubo.cidOf(block)), e.net);
    }
    hide CommitCrud, Inv, AclNode;
  }

  lemma RequestsFollow(s: State, e: Event)
    requires Inv(s) && IsCrud(e)
    ensures Follows(s, e)
  {
    hide Follows, Inv;
    match e {
      case EditKind(_, _, _) => KindRequestOwners(s, e);
      case EditConfig(_, _, _) => ConfigRequestOwners(s, e);
      case SetRootAcl(_, _, _) => RootAclRequestOwners(s, e);
      case SetAcl(_, _, _, _) => AclRequestOwners(s, e);
      case DeleteAcl(_, _) => DeleteAclRequestOwners(s, e);
      case UpsertEntity(_, _, _, _, _, _) => UpsertRequestOwners(s, e);
      case DeleteEntity(_, _) => DeleteRequestOwners(s, e);
      case SetEntityAcl(_, _, _, _, _) => EntityAclRequestOwners(s, e);
    }
  }

  /** One event: the list is replaced by the new manifest's, becomes the claimer
      alone, or stays. */
  lemma StepOwners(s: State, e: Event)
    requires Inv(s)
    ensures Step(s, e).owners == if Changes(s, e) then ListAfter(s, e) else s.owners
    ensures CommitsCrud(s, e) ==> HeadManifest(Step(s, e)).Some?
  {
    if IsCrud(e) {
      RequestsFollow(s, e);
      hide Step, MovesOf, Inv;
    } else if !e.Claimed? {
      EventFrame(s, e);
      hide Step, MovesOf, Inv;
    }
  }

  /** Said of the manifest's own field: a committed request leaves the texts listed
      under `owners`, if that is a list, and otherwise the owners there were. */
  lemma OwnersAreListed(s: State, e: Event, m': Manifest)
    requires Inv(s) && CommitsCrud(s, e) && HeadManifest(Step(s, e)) == Some(m')
    ensures "owners" in m'.config && m'.config["owners"].YamlSeq? ==> Step(s, e).owners == Texts(m'.config["owners"].items)
    ensures "owners" !in m'.config || !m'.config["owners"].YamlSeq? ==> Step(s, e).owners == s.owners
  {
    StepOwners(s, e);
    hide Step, CommitsCrud, Inv;
  }

  /** A claim goes through exactly while there is no owner. */
  lemma ClaimsWinIff(s: State, owner: string)
    ensures var t := Step(s, Claimed(owner));
      && (|s.owners| == 0 ==> t.owners == [owner] && owner in t.rootAcl && t.rootAcl[owner] == Acl.Allow({"*"})
                              && (forall p :: p != owner ==> (p in t.rootAcl <==> p in s.rootAcl))
                              && (forall p :: p != owner && p in s.rootAcl ==> t.rootAcl[p] == s.rootAcl[p]))
      && (|s.owners| > 0 ==> t == s)
  {}

  // ── Runs ────────────────────────────────────────────────────────────────────

  ghost predicate ChangesAt(s: State, es: seq<Event>, i: int) {
    0 <= i < |es| && Changes(Run(s, es[..i]), es[i])
  }

  /** Over any run the list is the one of the last event that changed it: what the
      manifest of a committed request held, or the claimer alone. */
  lemma {:induction false} RunOwners(s: State, es: seq<Event>) returns (last: int)
    requires Inv(s)
    ensures -1 <= last < |es| && (last >= 0 ==> ChangesAt(s, es, last))
    ensures forall j :: last < j < |es| ==> !ChangesAt(s, es, j)
    ensures Run(s, es).owners == if last == -1 then s.owners else ListAfter(Run(s, es[..last]), es[last])
    decreases |es|
  {
    hide Changes, ListAfter, Step, Inv;
    if es == [] {
      last := -1;
    } else {
      var n := |es| - 1;
      last := RunOwners(s, es[..n]);
      RunIsLinear(s, es[..n]);
      StepOwners(Run(s, es[..n]), es[n]);
      forall i | 0 <= i < n ensures ChangesAt(s, es, i) <==> ChangesAt(s, es[..n], i) {
        SamePrefix(s, es, n, i);
      }
      if ChangesAt(s, es, n) {
        last := n;
      } else if last >= 0 {
        SamePrefix(s, es, n, last);
      }
    }
  }

  lemma SamePrefix(s: State, es: seq<Event>, n: int, i: int)
    requires 0 <= i < n <= |es|
    ensures es[..n][..i] == es[..i] && es[..n][i] == es[i]
    ensures ChangesAt(s, es, i) <==> ChangesAt(s, es[..n], i)
  {
    hide Changes;
    assert es[..n][..i] == es[..i];
  }

  /** No event changes the list from here to the end of the run. */
  ghost predicate Unchanged(s: State, es: seq<Event>, from: int) {
    forall i :: from <= i < |es| ==> !ChangesAt(s, es, i)
  }

  /** This event makes the caller an owner, and no later one changes the list. */
  ghost predicate NamedAt(s: State, es: seq<Event>, j: int, caller: string, norm: string -> string) {
    && ChangesAt(s, es, j) && Acl.IsOwner(ListAfter(Run(s, es[..j]), es[j]), caller, norm)
    && Unchanged(s, es, j + 1)
  }

  /** Who is an owner after any run: an owner from the start whose list was never
      changed, or somebody on the list the last change left. */
  lemma OwnerAfterRunIff(s: State, es: seq<Event>, caller: string, norm: string -> string)
    requires Inv(s)
    ensures Acl.IsOwner(Run(s, es).owners, caller, norm) <==>
              || (Acl.IsOwner(s.owners, caller, norm) && Unchanged(s, es, 0))
              || exists j :: NamedAt(s, es, j, caller, norm)
  {
    var last := RunOwners(s, es);
    hide Changes, ListAfter, Step, Inv, Run, Acl.IsOwner;
    if last == -1 {
      forall j ensures !NamedAt(s, es, j, caller, norm) {}
    } else {
      assert ChangesAt(s, es, last) && !Unchanged(s, es, 0);
      forall j | NamedAt(s, es, j, caller, norm) ensures j == last {
        assert last < j + 1;
      }
      assert NamedAt(s, es, last, caller, norm) <==> Acl.IsOwner(ListAfter(Run(s, es[..last]), es[last]), caller, norm);
    }
  }

  // ── The list of the manifest ────────────────────────────────────────────────

  predicate TouchesOwners(e: Edit) {
    (e.SetConfig? || e.RemoveConfig?) && e.key == "owners"
  }

  predicate WritesOwnerConfig(e: Event) { e.EditConfig? && e.key == "owners" }

  lemma EditKeepsOwners(m: Manifest, e: Edit)
    requires !TouchesOwners(e)
    ensures OwnersIn(ApplyEdit(e, m)) == OwnersIn(m)
  {}

  lemma {:induction false} OtherEditsKeepOwners(m: Manifest, mvs: seq<Move>)
    requires forall i :: 0 <= i < |mvs| ==> !TouchesOwners(mvs[i].edit)
    ensures OwnersIn(FoldEdits(m, mvs)) == OwnersIn(m)
    decreases |mvs|
  {
    hide OwnersIn, ApplyEdit, TouchesOwners;
    if mvs != [] {
      var before := mvs[..|mvs| - 1];
      OtherEditsKeepOwners(m, before);
      EditKeepsOwners(FoldEdits(m, before), mvs[|mvs| - 1].edit);
    }
  }

  lemma OtherMovesKeepOwners(s: State, e: Event)
    requires !WritesOwnerConfig(e)
    ensures forall i :: 0 <= i < |MovesOf(s, e)| ==> !TouchesOwners(MovesOf(s, e)[i].edit)
  {
    if e.Dispatch? && e.caller in s.registry {
      AclCache.CreationsLinkEntities(s, s.registry[e.caller], e.creates);
    }
  }

  /** Only a request for that very key changes the list of the manifest. */
  lemma OtherEventsKeepOwnerConfig(s: State, e: Event)
    requires Inv(s) && HeadManifest(s).Some? && !WritesOwnerConfig(e)
    ensures HeadManifest(Step(s, e)).Some? && OwnersIn(HeadManifest(Step(s, e)).value) == OwnersIn(HeadManifest(s).value)
  {
    StepMoves(s, e);
    OtherMovesKeepOwners(s, e);
    MovedFold(s, MovesOf(s, e), Step(s, e));
    OtherEditsKeepOwners(HeadManifest(s).value, MovesOf(s, e));
  }

  // ── Who stays an owner ──────────────────────────────────────────────────────

  ghost predicate CommitsCrudAt(s: State, es: seq<Event>, i: int) {
    0 <= i < |es| && CommitsCrud(Run(s, es[..i]), es[i])
  }

  /** No request is committed from here to the end of the run. */
  ghost predicate Quiet(s: State, es: seq<Event>, from: int) {
    forall i :: from <= i < |es| ==> !CommitsCrudAt(s, es, i)
  }

  /** The caller claims the runtime, and no request is committed afterwards. */
  ghost predicate ReclaimedAt(s: State, es: seq<Event>, j: int, caller: string, norm: string -> string) {
    && 0 <= j < |es| && Claims(Run(s, es[..j]), es[j]) && norm(es[j].owner) == norm(caller)
    && Quiet(s, es, j + 1)
  }

  ghost predicate Reclaimed(s: State, es: seq<Event>, caller: string, norm: string -> string) {
    exists j :: ReclaimedAt(s, es, j, caller, norm)
  }

  /** A configured or claimed owner is still one after a run if and only if the
      manifest holds no owner list, or names the owner too, or no request was
      committed, or the owner claimed the runtime again after the last one. */
  lemma {:induction false} OwnerStaysIff(s: State, es: seq<Event>, caller: string, norm: string -> string)
    requires Inv(s) && HeadManifest(s).Some? && Acl.IsOwner(s.owners, caller, norm)
    requires forall i :: 0 <= i < |es| ==> !WritesOwnerConfig(es[i])
    ensures HeadManifest(Run(s, es)).Some? && OwnersIn(HeadManifest(Run(s, es)).value) == OwnersIn(HeadManifest(s).value)
    ensures Acl.IsOwner(Run(s, es).owners, caller, norm) <==>
              var list := OwnersIn(HeadManifest(s).value);
              list.None? || Acl.IsOwner(list.value, caller, norm) || Quiet(s, es, 0) || Reclaimed(s, es, caller, norm)
    decreases |es|
  {
    if es != [] {
      var n := |es| - 1;
      var before, e := es[..n], es[n];
      OwnerStaysIff(s, before, caller, norm);
      RunIsLinear(s, before);
      OtherEventsKeepOwnerConfig(Run(s, before), e);
      StepOwners(Run(s, before), e);
      QuietStep(s, es, 0);
      ReclaimedStep(s, es, caller, norm);
      OwnerStep(Run(s, before), e, caller, norm);
    }
  }

  lemma QuietStep(s: State, es: seq<Event>, from: int)
    requires es != [] && 0 <= from < |es|
    ensures var n := |es| - 1; Quiet(s, es, from) <==> Quiet(s, es[..n], from) && !CommitsCrud(Run(s, es[..n]), es[n])
  {
    var n := |es| - 1;
    forall i | 0 <= i < n ensures CommitsCrudAt(s, es, i) <==> CommitsCrudAt(s, es[..n], i) {
      assert es[..n][..i] == es[..i];
    }
    assert CommitsCrudAt(s, es, n) <==> CommitsCrud(Run(s, es[..n]), es[n]);
  }

  lemma ReclaimedStep(s: State, es: seq<Event>, caller: string, norm: string -> string)
    requires es != []
    ensures var n := |es| - 1;
      var t := Run(s, es[..n]);
      Reclaimed(s, es, caller, norm) <==>
        || (Claims(t, es[n]) && norm(es[n].owner) == norm(caller))
        || (Reclaimed(s, es[..n], caller, norm) && !CommitsCrud(t, es[n]))
  {
    var n := |es| - 1;
    forall j | 0 <= j < n
      ensures ReclaimedAt(s, es, j, caller, norm) <==>
                ReclaimedAt(s, es[..n], j, caller, norm) && !CommitsCrud(Run(s, es[..n]), es[n])
    {
      assert es[..n][..j] == es[..j];
      QuietStep(s, es, j + 1);
    }
    assert ReclaimedAt(s, es, n, caller, norm) <==> Claims(Run(s, es[..n]), es[n]) && norm(es[n].owner) == norm(caller);
    if j :| ReclaimedAt(s, es[..n], j, caller, norm) {
      assert CommitsCrud(Run(s, es[..n]), es[n]) || ReclaimedAt(s, es, j, caller, norm);
    }
  }

  /** What one event makes of an owner. */
  lemma OwnerStep(t: State, e: Event, caller: string, norm: string -> string)
    requires Inv(t) && HeadManifest(t).Some? && !WritesOwnerConfig(e)
    ensures var list := OwnersIn(HeadManifest(t).value);
      Acl.IsOwner(Step(t, e).owners, caller, norm) <==>
        if CommitsCrud(t, e) && list.Some? then Acl.IsOwner(list.value, caller, norm)
        else if Claims(t, e) then norm(e.owner) == norm(caller)
        else Acl.IsOwner(t.owners, caller, norm)
  {
    StepOwners(t, e);
    OtherEventsKeepOwnerConfig(t, e);
  }

  // ── The gates ───────────────────────────────────────────────────────────────

  const CAP_CRUD := "crud"

  /** Owners bypass the ACL; everybody else is judged without groups. */
  ghost predicate Passes(s: State, caller: string, cap: string, norm: string -> string) {
    Acl.IsOwner(s.owners, caller, norm)
    || Acl.Granted(s.rootAcl, norm(caller), [cap], Acl.Membership(norm(caller), norm, NoGroups()))
  }

  /** The gate before every structured-data request, and before every message from
      elsewhere to a plugin, each with its own capability. */
  method TransportGate(d: Daemon, from: string, cap: string, norm: string -> string) returns (ok: bool)
    ensures ok <==> Passes(d.Value(), from, cap, norm)
  {
    if Acl.IsOwner(d.owners, from, norm) { return true; }
    ok := Acl.CheckFull(d.rootAcl, from, [cap], norm, NoGroups());
  }

  /** After a write to the root ACL that goes through, a caller passes if and only
      if the manifest's list names the caller, or it holds none and the caller was
      an owner before, or the new document lets the caller in. */
  lemma PassesAfterRootWriteIff(s: State, e: Event, caller: string, cap: string, norm: string -> string)
    requires Inv(s) && Replaces(s, e) && norm(caller) != Acl.OWNERS_PRINCIPAL
    ensures s.kubo.GetAcl(e.cid).Some?
    ensures Passes(Step(s, e), caller, cap, norm) <==>
              || Acl.IsOwner(OwnersAfter(s.owners, HeadManifest(s).value), caller, norm)
              || Acl.Granted(s.kubo.GetAcl(e.cid).value, norm(caller), [cap], Acl.Membership(norm(caller), norm, NoGroups()))
  {
    var doc := s.kubo.GetAcl(e.cid).value;
    RootWriteOwners(s, e);
    CrudEdits(s, SetRootAclLink(e.cid), e.net);
    assert Step(s, e).rootAcl == Acl.InjectOwners(doc);
    NobodyIsMember(norm(caller), norm, Acl.OWNERS_PRINCIPAL);
    Acl.InjectedOwnersChangeNoDecision(doc, norm(caller), [cap], Acl.Membership(norm(caller), norm, NoGroups()));
    hide Commit, CommitCrud, Step, Inv, Acl.Granted;
  }

  lemma EmptyDocumentLetsNobodyIn(principal: string, cap: string, member: string -> bool)
    ensures !Acl.Granted(map[], principal, [cap], member)
  {}

  /** On a minimal manifest, whose owner list is empty, the only owner publishes an
      empty root ACL: the owner is refused from then on, and the runtime is open to
      the next claim. */
  lemma OwnerLocksOut(s: State, e: Event, owner: string, stranger: string, norm: string -> string)
    requires Inv(s) && HeadManifest(s).Some? && HeadManifest(s).value.config == map["owners" := YamlSeq([])]
    requires s.owners == [owner] && norm(owner) != Acl.OWNERS_PRINCIPAL
    requires Replaces(s, e) && s.kubo.GetAcl(e.cid) == Some(map[])
    ensures Passes(s, owner, CAP_CRUD, norm)
    ensures var t := Step(s, e);
      t.owners == [] && !Passes(t, owner, CAP_CRUD, norm) && Step(t, Claimed(stranger)).owners == [stranger]
  {
    assert owner in s.owners;
    RootWriteOwners(s, e);
    PassesAfterRootWriteIff(s, e, owner, CAP_CRUD, norm);
    EmptyDocumentLetsNobodyIn(norm(owner), CAP_CRUD, Acl.Membership(norm(owner), norm, NoGroups()));
    hide Inv, Replaces, Passes;
  }

  lemma RootWriteOwners(s: State, e: Event)
    requires Inv(s) && Replaces(s, e)
    ensures Step(s, e).owners == OwnersAfter(s.owners, HeadManifest(s).value)
  {
    CrudEdits(s, SetRootAclLink(e.cid), e.net);
    hide Commit, CommitCrud, Inv;
  }
}
