/** Access decisions (src/acl.rs). Principal normalisation and group membership
    live outside the runtime's own code: normalisation is a parameter, and so is
    the resolver that expands a group. */
module Acl {
  import opened Text

  datatype Entry = Deny | Allow(caps: set<string>)
  type AclMap = map<string, Entry>

  /** Members of a group, or nothing when it cannot be resolved. */
  type Resolver = string -> Option<seq<string>>

  const OWNERS_PRINCIPAL := "+owners"

  predicate IsGroup(key: string) {
    key != "" && key[0] == '+'
  }

  predicate Denied(acl: AclMap, principal: string) {
    principal in acl && acl[principal].Deny?
  }

  predicate Holds(entry: Entry, cap: string) {
    entry.Allow? && (cap in entry.caps || "*" in entry.caps)
  }

  /** The check without groups: an exact entry decides, otherwise `*` does. */
  predicate CheckCap(acl: AclMap, principal: string, cap: string) {
    if principal in acl then Holds(acl[principal], cap)
    else "*" in acl && Holds(acl["*"], cap)
  }

  predicate IsMember(group: string, principal: string, norm: string -> string, resolve: Resolver) {
    match resolve(group)
    case Some(members) => exists m :: m in members && norm(m) == principal
    case None => false
  }

  // ── The rule ────────────────────────────────────────────────────────────────

  ghost predicate PassesDirectly(acl: AclMap, principal: string, caps: seq<string>) {
    exists c :: c in caps && CheckCap(acl, principal, c)
  }

  ghost predicate InDeniedGroup(acl: AclMap, member: string -> bool) {
    exists g :: g in acl && IsGroup(g) && acl[g].Deny? && member(g)
  }

  ghost predicate GroupGrants(entry: Entry, caps: seq<string>) {
    exists c :: c in caps && Holds(entry, c)
  }

  ghost predicate InGrantingGroup(acl: AclMap, caps: seq<string>, member: string -> bool) {
    exists g :: g in acl && IsGroup(g) && member(g) && GroupGrants(acl[g], caps)
  }

  /** Who is let in, without mention of any order of evaluation. */
  ghost predicate Granted(acl: AclMap, principal: string, caps: seq<string>, member: string -> bool) {
    && !Denied(acl, principal)
    && !Denied(acl, "*")
    && (PassesDirectly(acl, principal, caps)
        || (!InDeniedGroup(acl, member) && InGrantingGroup(acl, caps, member)))
  }

  function Membership(principal: string, norm: string -> string, resolve: Resolver): string -> bool {
    g => IsMember(g, principal, norm, resolve)
  }

  /** The map has no order: both loops take its keys as they come. */
  method CheckFull(acl: AclMap, caller: string, caps: seq<string>, norm: string -> string, resolve: Resolver)
    returns (ok: bool)
    ensures ok <==> Granted(acl, norm(caller), caps, Membership(norm(caller), norm, resolve))
  {
    var principal := norm(caller);
    ghost var member := Membership(principal, norm, resolve);
    if principal in acl && acl[principal].Deny? {
      return false;
    }
    if "*" in acl && acl["*"].Deny? {
      return false;
    }
    for i := 0 to |caps|
      invariant forall j :: 0 <= j < i ==> !CheckCap(acl, principal, caps[j])
    {
      if CheckCap(acl, principal, caps[i]) {
        return true;
      }
    }
    assert !PassesDirectly(acl, principal, caps);
    var todo := acl.Keys;
    while todo != {}
      invariant todo <= acl.Keys
      invariant forall g :: g in acl && g !in todo && IsGroup(g) && acl[g].Deny? ==> !member(g)
      decreases todo
    {
      var key :| key in todo;
      if IsGroup(key) && acl[key].Deny? && IsMember(key, principal, norm, resolve) {
        assert member(key);
        return false;
      }
      todo := todo - {key};
    }
    assert !InDeniedGroup(acl, member);
    todo := acl.Keys;
    while todo != {}
      invariant todo <= acl.Keys
      invariant forall g :: g in acl && g !in todo && IsGroup(g) && member(g) ==> !GroupGrants(acl[g], caps)
      decreases todo
    {
      var key :| key in todo;
      if IsGroup(key) && acl[key].Allow? && IsMember(key, principal, norm, resolve)
         && exists c :: c in caps && Holds(acl[key], c) {
        assert member(key) && GroupGrants(acl[key], caps);
        return true;
      }
      todo := todo - {key};
    }
    assert !InGrantingGroup(acl, caps, member);
    return false;
  }

  // ── The rule without its parts ──────────────────────────────────────────────

  /** This entry allows one of the requested capabilities, or all of them. */
  ghost predicate AllowsOne(entry: Entry, caps: seq<string>) {
    entry != Deny && exists i :: 0 <= i < |caps| && (caps[i] in entry.caps || "*" in entry.caps)
  }

  /** A principal with an entry of its own is judged by that entry alone, however
      narrow; everybody else by the `*` entry, if there is one. */
  lemma ExactEntryDecides(acl: AclMap, principal: string, caps: seq<string>)
    ensures principal in acl ==> (PassesDirectly(acl, principal, caps) <==> AllowsOne(acl[principal], caps))
    ensures principal !in acl && "*" in acl ==> (PassesDirectly(acl, principal, caps) <==> AllowsOne(acl["*"], caps))
    ensures principal !in acl && "*" !in acl ==> !PassesDirectly(acl, principal, caps)
  {
    if principal in acl {
      EntryGrants(acl[principal], caps);
      assert forall c :: CheckCap(acl, principal, c) <==> Holds(acl[principal], c);
    } else if "*" in acl {
      EntryGrants(acl["*"], caps);
      assert forall c :: CheckCap(acl, principal, c) <==> Holds(acl["*"], c);
    }
  }

  /** A denied principal is refused whatever else the map says, and when everybody
      is denied, everybody is. */
  lemma DenyRefuses(acl: AclMap, principal: string, caps: seq<string>, member: string -> bool)
    requires (principal in acl && acl[principal] == Deny) || ("*" in acl && acl["*"] == Deny)
    ensures !Granted(acl, principal, caps, member)
  {}

  /** Without a pass of its own, a principal nobody denies gets in exactly through a
      group: none it belongs to is denied, and one allows what is asked. */
  lemma GroupsDecideTheRest(acl: AclMap, principal: string, caps: seq<string>, member: string -> bool)
    requires principal in acl ==> acl[principal] != Deny
    requires "*" in acl ==> acl["*"] != Deny
    requires !PassesDirectly(acl, principal, caps)
    ensures Granted(acl, principal, caps, member) <==>
              && (forall g :: g in acl && member(g) && |g| > 0 && g[0] == '+' ==> acl[g] != Deny)
              && exists g :: g in acl && member(g) && |g| > 0 && g[0] == '+' && AllowsOne(acl[g], caps)
  {
    forall g | g in acl ensures GroupGrants(acl[g], caps) <==> AllowsOne(acl[g], caps) {
      EntryGrants(acl[g], caps);
    }
  }

  lemma EntryGrants(entry: Entry, caps: seq<string>)
    ensures GroupGrants(entry, caps) <==> AllowsOne(entry, caps)
  {
    if AllowsOne(entry, caps) {
      var i :| 0 <= i < |caps| && (caps[i] in entry.caps || "*" in entry.caps);
      assert caps[i] in caps && Holds(entry, caps[i]);
    }
    if GroupGrants(entry, caps) {
      var c :| c in caps && Holds(entry, c);
      var i :| 0 <= i < |caps| && caps[i] == c;
    }
  }

  /** A caller belongs to a group if some member of it normalises to the caller; a
      group that cannot be resolved has no members. */
  lemma MembersAreNormalised(group: string, principal: string, norm: string -> string, resolve: Resolver)
    ensures resolve(group).None? ==> !IsMember(group, principal, norm, resolve)
    ensures resolve(group).Some? ==>
              (IsMember(group, principal, norm, resolve) <==>
               exists i :: 0 <= i < |resolve(group).value| && norm(resolve(group).value[i]) == principal)
  {
    if resolve(group).Some? {
      var members := resolve(group).value;
      if m :| m in members && norm(m) == principal {
        var i :| 0 <= i < |members| && members[i] == m;
      }
      assert forall i :: 0 <= i < |members| ==> members[i] in members;
    }
  }

  // ── How a decision moves when the map moves ─────────────────────────────────

  /** Turning an entry into Deny, or adding one, never lets anyone in. */
  lemma DenyNeverGrants(acl: AclMap, k: string, principal: string, caps: seq<string>, member: string -> bool)
    requires Granted(acl[k := Deny], principal, caps, member)
    ensures Granted(acl, principal, caps, member)
  {}

  /** Adding an Allow for a group, or widening one, shuts nobody out whose own
      principal is not that very key. */
  lemma GroupAllowNeverRefuses(acl: AclMap, k: string, more: set<string>, principal: string, caps: seq<string>,
                               member: string -> bool)
    requires IsGroup(k) && k != principal
    requires k in acl && acl[k].Allow? ==> acl[k].caps <= more
    requires Granted(acl, principal, caps, member)
    ensures Granted(acl[k := Allow(more)], principal, caps, member)
  {}

  /** The side condition is needed: an exact entry shadows the wildcard, so a
      caller whose principal is a group key can lose access to a new Allow. */
  lemma OwnEntryShadowsWildcard(principal: string, cap: string, member: string -> bool)
    requires IsGroup(principal)
    ensures Granted(map["*" := Allow({cap})], principal, [cap], member)
    ensures !Granted(map["*" := Allow({cap}), principal := Allow({})], principal, [cap], member)
  {
    var before: AclMap := map["*" := Allow({cap})];
    var after: AclMap := map["*" := Allow({cap}), principal := Allow({})];
    assert cap in [cap] && CheckCap(before, principal, cap);
    assert !PassesDirectly(after, principal, [cap]);
    assert forall g :: g in after && IsGroup(g) ==> g == principal;
    assert !GroupGrants(after[principal], [cap]);
  }

  /** Asking for more capabilities never loses a grant. */
  lemma MoreCapsNeverRefuse(acl: AclMap, principal: string, caps: seq<string>, more: seq<string>,
                            member: string -> bool)
    requires forall c :: c in caps ==> c in more
    requires Granted(acl, principal, caps, member)
    ensures Granted(acl, principal, more, member)
  {}

  /** "Deny always wins" holds for a denied group exactly when no requested
      capability passes the direct check, which runs first. */
  lemma GroupDenyWinsIffNothingPassesDirectly(acl: AclMap, principal: string, caps: seq<string>,
                                              member: string -> bool)
    requires InDeniedGroup(acl, member)
    requires !Denied(acl, principal) && !Denied(acl, "*")
    ensures !Granted(acl, principal, caps, member) <==> !PassesDirectly(acl, principal, caps)
  {}

  /** A member of a denied group who gets in through the wildcard. */
  lemma DeniedGroupMemberGetsIn()
    ensures
      var acl: AclMap := map["*" := Allow({"rpc"}), "+#enemies" := Deny];
      var member := (g: string) => g == "+#enemies";
      InDeniedGroup(acl, member) && Granted(acl, "did:ma:alice", ["rpc"], member)
  {
    var acl: AclMap := map["*" := Allow({"rpc"}), "+#enemies" := Deny];
    var member := (g: string) => g == "+#enemies";
    assert "+#enemies" in acl && IsGroup("+#enemies") && member("+#enemies");
    assert "did:ma:alice" !in acl;
    assert "rpc" in ["rpc"] && CheckCap(acl, "did:ma:alice", "rpc");
    assert !Denied(acl, "*");
  }

  // ── Owners ──────────────────────────────────────────────────────────────────

  /** The entry every loaded document receives. */
  function InjectOwners(acl: AclMap): AclMap {
    acl[OWNERS_PRINCIPAL := Allow({"*"})]
  }

  /** Everybody who reads a loaded map finds the owners in it, next to what the
      document says. */
  lemma OwnersAreShown(acl: AclMap)
    ensures "+owners" in InjectOwners(acl) && InjectOwners(acl)["+owners"] == Allow({"*"})
    ensures forall k :: k != "+owners" ==> (k in InjectOwners(acl) <==> k in acl)
    ensures forall k :: k != "+owners" && k in acl ==> InjectOwners(acl)[k] == acl[k]
  {}

  const EVERYTHING: Entry := Allow({"*"})

  /** The live map after these principals were let in. */
  function WithOwners(acl: AclMap, owners: set<string>): AclMap {
    acl + map o | o in owners :: EVERYTHING
  }

  function Members(owners: seq<string>): set<string> {
    set o | o in owners
  }

  method GrantOwners(acl: AclMap, owners: seq<string>) returns (granted: AclMap)
    ensures granted == WithOwners(acl, Members(owners))
  {
    granted := acl;
    for i := 0 to |owners|
      invariant granted == WithOwners(acl, Members(owners[..i]))
    {
      granted := granted[owners[i] := EVERYTHING];
      assert owners[..i + 1] == owners[..i] + [owners[i]];
      assert Members(owners[..i + 1]) == Members(owners[..i]) + {owners[i]};
    }
    assert owners[..|owners|] == owners;
  }

  predicate IsOwner(owners: seq<string>, caller: string, norm: string -> string) {
    exists o :: o in owners && norm(o) == norm(caller)
  }

  /** Owners are compared as principals are. */
  lemma OwnersAreNormalised(owners: seq<string>, caller: string, norm: string -> string)
    ensures IsOwner(owners, caller, norm) <==> exists i :: 0 <= i < |owners| && norm(owners[i]) == norm(caller)
  {
    if IsOwner(owners, caller, norm) {
      var o :| o in owners && norm(o) == norm(caller);
      var i :| 0 <= i < |owners| && owners[i] == o;
    }
    assert forall i :: 0 <= i < |owners| ==> owners[i] in owners;
  }

  /** The injected entry is cosmetic: it changes no decision as long as nobody is
      called `+owners` and the resolver reports no member of that group. */
  lemma InjectedOwnersChangeNoDecision(acl: AclMap, principal: string, caps: seq<string>, member: string -> bool)
    requires principal != OWNERS_PRINCIPAL && !member(OWNERS_PRINCIPAL)
    ensures Granted(InjectOwners(acl), principal, caps, member) <==> Granted(acl, principal, caps, member)
  {}

  /** `+#<fragment>` asks the local set actor whether it contains the caller;
      every other group reference fails to resolve. */
  function QueryActorGroup(caller: string, contains: string -> Option<bool>): Resolver {
    group =>
      if |group| >= 2 && group[..2] == "+#" then
        match contains(group[2..])
        case Some(true) => Some([caller])
        case Some(false) => Some([])
        case None => None
      else None
  }

  /** With actor groups the caller is a member of exactly the `+#` groups whose
      actor says so, and `+owners` is never among them. */
  lemma ActorGroupMembership(caller: string, contains: string -> Option<bool>, norm: string -> string, group: string)
    ensures IsMember(group, norm(caller), norm, QueryActorGroup(caller, contains))
            <==> |group| >= 2 && group[..2] == "+#" && contains(group[2..]) == Some(true)
    ensures !IsMember(OWNERS_PRINCIPAL, norm(caller), norm, QueryActorGroup(caller, contains))
    ensures QueryActorGroup(caller, contains)(group).None?
            <==> !(|group| >= 2 && group[..2] == "+#") || contains(group[2..]).None?
  {
    assert OWNERS_PRINCIPAL[1] == 'o';
    if |group| >= 2 && group[..2] == "+#" && contains(group[2..]) == Some(true) {
      assert caller in [caller];
    }
  }
}
