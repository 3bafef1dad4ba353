/** The manifest head as one line of edits, and the pins that follow it
    (src/crud/helpers.rs, src/rpc.rs, src/bootstrap.rs, src/kubo.rs). */
module Head {
  import opened Text
  import opened Ipld
  import opened Plugins
  import Trie
  import opened ProtocolIds
  import Shutdown
  import opened Runtime

  /** The head always resolves. */
  ghost predicate Inv(s: State) {
    s.kubo.Valid() && (s.head.Some? ==> HeadManifest(s).Some?)
  }

  // ── A head that moves along edits ───────────────────────────────────────────

  /** One committed edit and how moving the pin went. */
  datatype Move = Move(edit: Edit, pin: PinNet)

  datatype Lineage = Lineage(cid: Cid, manifest: Manifest, pins: set<Cid>)

  predicate PinOk(pins: set<Cid>, current: Cid, net: PinNet) {
    net.updateOk && (current in pins || net.addOk)
  }

  function MovePin(pins: set<Cid>, current: Cid, next: Cid, net: PinNet): set<Cid> {
    if !PinOk(pins, current, net) then pins
    else if current in pins then pins - {current} + {next}
    else pins + {next}
  }

  function MoveOne(cidOf: Block -> Cid, h: Lineage, mv: Move): Lineage {
    var m := ApplyEdit(mv.edit, h.manifest);
    var cid := cidOf(ManifestBlock(m));
    Lineage(cid, m, MovePin(h.pins, h.cid, cid, mv.pin))
  }

  function MoveAll(cidOf: Block -> Cid, h: Lineage, mvs: seq<Move>): Lineage
    decreases |mvs|
  {
    if mvs == [] then h else MoveOne(cidOf, MoveAll(cidOf, h, mvs[..|mvs| - 1]), mvs[|mvs| - 1])
  }

  function FoldEdits(m: Manifest, mvs: seq<Move>): Manifest
    decreases |mvs|
  {
    if mvs == [] then m else ApplyEdit(mvs[|mvs| - 1].edit, FoldEdits(m, mvs[..|mvs| - 1]))
  }

  function LineageOf(s: State): Lineage
    requires HeadManifest(s).Some?
  {
    Lineage(s.head.value, HeadManifest(s).value, s.kubo.pins)
  }

  /** From `s` to `t` the head made exactly these moves, and the store only grew. */
  ghost predicate Moved(s: State, mvs: seq<Move>, t: State) {
    && Inv(s) && Inv(t) && Grows(s.kubo, t.kubo)
    && (s.head.None? ==> t.head.None? && t.kubo.pins == s.kubo.pins)
    && (s.head.Some? ==> t.head.Some? && LineageOf(t) == MoveAll(s.kubo.cidOf, LineageOf(s), mvs))
  }

  // ── The moves of each event ─────────────────────────────────────────────────

  /** A commit goes through when there is a head, and it is fetched and replaced. */
  predicate Commits(s: State, net: Net) {
    HeadManifest(s).Some? && net.getOk && net.putOk
  }

  function MoveIf(committed: bool, e: Edit, net: Net): seq<Move> {
    if committed then [Move(e, net.pin)] else []
  }

  function CreateMoves(s: State, entity: Plugin, c: Create): seq<Move> {
    if c.kindProtocol !in s.kinds then []
    else
      match LoadPlugin(c.fragment, ChildNode(entity, c), s.kinds[c.kindProtocol], c.wasm)
      case Some((plugin, Running)) =>
        MoveIf(Commits(s, c.net) && c.nodePutOk,
               SetEntityLink(c.fragment, s.kubo.cidOf(EntityBlock(ChildNode(entity, c).(lifecycle := Running)))), c.net)
      case _ => []
  }

  function CreateEachMoves(s: State, entity: Plugin, creates: seq<Create>): seq<Move>
    decreases |creates|
  {
    if creates == [] then [] else
      var before := creates[..|creates| - 1];
      CreateEachMoves(s, entity, before) + CreateMoves(CreateEach(s, entity, before), entity, creates[|creates| - 1])
  }

  function MovesOf(s: State, e: Event): seq<Move> {
    match e
    case EditKind(protocol, Some(cid), net) => MoveIf(IsCidV1(cid) && Commits(s, net), SetKind(protocol, cid), net)
    case EditKind(protocol, None, net) => MoveIf(Commits(s, net), RemoveKind(protocol), net)
    case EditConfig(key, value, net) => MoveIf(ReachesManifest(key, value) && Commits(s, net), ConfigEdit(key, value), net)
    case SetRootAcl(cid, fetchOk, net) =>
      MoveIf(IsCidV1(cid) && LoadAcl(s.kubo, cid, fetchOk).Some? && Commits(s, net), SetRootAclLink(cid), net)
    case SetAcl(name, cid, _, net) => MoveIf(IsCidV1(cid) && Commits(s, net), SetAclLink(name, cid), net)
    case DeleteAcl(name, net) => MoveIf(Commits(s, net), RemoveAclLink(name), net)
    case UpsertEntity(name, cid, fetchOk, net, _, _) =>
      MoveIf(AllowedName(name) && fetchOk && s.kubo.GetEntity(cid).Some? && Commits(s, net), SetEntityLink(name, cid), net)
    case DeleteEntity(name, net) => MoveIf(Commits(s, net), RemoveEntityLink(name), net)
    case SetEntityAcl(name, acl, readOk, nodePutOk, net) =>
      (match AclNode(s, name, acl, readOk, nodePutOk)
       case Some(node) => MoveIf(Commits(s, net), SetEntityLink(name, s.kubo.cidOf(EntityBlock(node))), net)
       case None => [])
    case Dispatch(caller, creates, _) =>
      if caller in s.registry then CreateEachMoves(s, s.registry[caller], creates) else []
    case ShutdownSave(order, f, net) =>
      if s.registry == map[] || !Commits(s, net) then []
      else
        var (k, m) := Shutdown.SaveEach(s.kubo, HeadManifest(s).value, s.registry, order, f);
        [Move(SetEntityLinks(m.entities), net.pin)]
    case Claimed(_) => []
    case Published(_) => []
  }

  function RunMoves(s: State, es: seq<Event>): seq<Move>
    decreases |es|
  {
    if es == [] then [] else
      var before := es[..|es| - 1];
      RunMoves(s, before) + MovesOf(Run(s, before), es[|es| - 1])
  }

  // ── Every event moves the head by its own edits only ────────────────────────

  lemma {:induction false} MoveAllConcat(cidOf: Block -> Cid, h: Lineage, a: seq<Move>, b: seq<Move>)
    ensures MoveAll(cidOf, h, a + b) == MoveAll(cidOf, MoveAll(cidOf, h, a), b)
    decreases |b|
  {
    if b == [] {
      assert a + b == a;
    } else {
      assert (a + b)[..|a + b| - 1] == a + b[..|b| - 1];
      MoveAllConcat(cidOf, h, a, b[..|b| - 1]);
    }
  }

  lemma MovedTwice(s: State, a: seq<Move>, t: State, b: seq<Move>, u: State)
    requires Moved(s, a, t) && Moved(t, b, u)
    ensures Moved(s, a + b, u)
  {
    if s.head.Some? {
      MoveAllConcat(s.kubo.cidOf, LineageOf(s), a, b);
    }
  }

  lemma StayedPut(s: State, t: State)
    requires Inv(s) && t.head == s.head && t.kubo == s.kubo
    ensures Moved(s, [], t)
  {}

  lemma CommitMoves(s: State, e: Edit, net: Net)
    requires Inv(s)
    ensures Commit(s, e, net).1 <==> Commits(s, net)
    ensures Moved(s, MoveIf(Commits(s, net), e, net), Commit(s, e, net).0)
    ensures var t := Commit(s, e, net).0; t == s.(kubo := t.kubo, head := t.head)
    ensures !Commits(s, net) ==> Commit(s, e, net).0 == s
  {
    var t := Commit(s, e, net).0;
    if Commits(s, net) {
      var block := ManifestBlock(ApplyEdit(e, HeadManifest(s).value));
      PutGrows(s.kubo, block);
      var mv := Move(e, net.pin);
      assert [mv][..0] == [];
      assert MoveAll(s.kubo.cidOf, LineageOf(s), [mv]) == MoveOne(s.kubo.cidOf, LineageOf(s), mv);
      assert HeadManifest(t) == Some(ApplyEdit(e, HeadManifest(s).value));
    }
  }

  /** The same, said of the manifests: a commit that goes through leaves the edited
      manifest behind the head, and any other leaves everything as it was. */
  lemma CommitEdits(s: State, e: Edit, net: Net)
    requires Inv(s)
    ensures var (t, ok) := Commit(s, e, net);
      && (ok <==> Commits(s, net))
      && Inv(t) && Grows(s.kubo, t.kubo) && t == s.(kubo := t.kubo, head := t.head)
      && (ok ==> HeadManifest(t) == Some(ApplyEdit(e, HeadManifest(s).value)))
      && (!ok ==> t == s)
  {
    CommitMoves(s, e, net);
    if Commits(s, net) {
      PutGrows(s.kubo, ManifestBlock(ApplyEdit(e, HeadManifest(s).value)));
    }
  }

  lemma CrudEdits(s: State, e: Edit, net: Net)
    requires Inv(s)
    ensures var (t, ok) := CommitCrud(s, e, net);
      && (ok <==> Commits(s, net))
      && t.kubo == Commit(s, e, net).0.kubo
      && Inv(t) && Grows(s.kubo, t.kubo) && t == s.(kubo := t.kubo, head := t.head, owners := t.owners)
      && (ok ==> HeadManifest(t) == Some(ApplyEdit(e, HeadManifest(s).value))
                 && t.owners == OwnersAfter(s.owners, HeadManifest(t).value))
      && (!ok ==> t == s)
  {
    CommitEdits(s, e, net);
    hide Commit;
  }

  /** A request's commit differs in the owner list only. */
  lemma CrudMoves(s: State, e: Edit, net: Net)
    requires Inv(s)
    ensures CommitCrud(s, e, net).1 <==> Commits(s, net)
    ensures Moved(s, MoveIf(Commits(s, net), e, net), CommitCrud(s, e, net).0)
    ensures var t := CommitCrud(s, e, net).0; t == s.(kubo := t.kubo, head := t.head, owners := t.owners)
    ensures !Commits(s, net) ==> CommitCrud(s, e, net).0 == s
  {
    CommitMoves(s, e, net);
  }

  /** Storing a block moves nothing. */
  lemma PutMovesNothing(s: State, b: Block)
    requires Inv(s)
    ensures Moved(s, [], s.(kubo := s.kubo.Put(b)))
    ensures HeadManifest(s.(kubo := s.kubo.Put(b))) == HeadManifest(s)
  {
    PutGrows(s.kubo, b);
  }

  lemma PutThenCommit(s: State, b: Block, e: Edit, net: Net)
    requires Inv(s)
    ensures Moved(s, MoveIf(Commits(s, net), e, net), Commit(s.(kubo := s.kubo.Put(b)), e, net).0)
    ensures Moved(s, MoveIf(Commits(s, net), e, net), CommitCrud(s.(kubo := s.kubo.Put(b)), e, net).0)
  {
    var t := s.(kubo := s.kubo.Put(b));
    PutMovesNothing(s, b);
    CommitMoves(t, e, net);
    MovedTwice(s, [], t, MoveIf(Commits(t, net), e, net), Commit(t, e, net).0);
    assert [] + MoveIf(Commits(t, net), e, net) == MoveIf(Commits(s, net), e, net);
  }

  lemma CreateOneMoves(s: State, entity: Plugin, c: Create)
    requires Inv(s)
    ensures Moved(s, CreateMoves(s, entity, c), CreateOne(s, entity, c))
  {
    if c.kindProtocol in s.kinds {
      match LoadPlugin(c.fragment, ChildNode(entity, c), s.kinds[c.kindProtocol], c.wasm) {
        case Some((plugin, Running)) =>
          var r := s.(registry := s.registry[c.fragment := plugin]);
          StayedPut(s, r);
          if HeadManifest(r).Some? && c.net.getOk && c.nodePutOk {
            var node := ChildNode(entity, c).(lifecycle := Running);
            PutThenCommit(r, EntityBlock(node), SetEntityLink(c.fragment, s.kubo.cidOf(EntityBlock(node))), c.net);
          }
        case _ =>
          StayedPut(s, s);
      }
    } else {
      StayedPut(s, s);
    }
  }

  lemma {:induction false} CreateEachMovesHead(s: State, entity: Plugin, creates: seq<Create>)
    requires Inv(s)
    ensures Moved(s, CreateEachMoves(s, entity, creates), CreateEach(s, entity, creates))
    decreases |creates|
  {
    if creates == [] {
      StayedPut(s, s);
    } else {
      var before, c := creates[..|creates| - 1], creates[|creates| - 1];
      var t := CreateEach(s, entity, before);
      CreateEachMovesHead(s, entity, before);
      CreateOneMoves(t, entity, c);
      MovedTwice(s, CreateEachMoves(s, entity, before), t, CreateMoves(t, entity, c), CreateOne(t, entity, c));
    }
  }

  lemma ShutdownMoves(s: State, order: seq<string>, f: Shutdown.Faults, net: Net)
    requires Inv(s)
    ensures Moved(s, MovesOf(s, ShutdownSave(order, f, net)), OnShutdown(s, order, f, net))
  {
    if HeadManifest(s).None? || s.registry == map[] || !net.getOk {
      StayedPut(s, s);
    } else {
      var (k, m) := Shutdown.SaveEach(s.kubo, HeadManifest(s).value, s.registry, order, f);
      Shutdown.SaveEachGrows(s.kubo, HeadManifest(s).value, s.registry, order, f);
      var t := s.(kubo := k);
      assert HeadManifest(t) == HeadManifest(s);
      assert Moved(s, [], t);
      CommitMoves(t, SetEntityLinks(m.entities), net);
      MovedTwice(s, [], t, MoveIf(Commits(t, net), SetEntityLinks(m.entities), net), OnShutdown(s, order, f, net));
      assert [] + MovesOf(s, ShutdownSave(order, f, net)) == MovesOf(s, ShutdownSave(order, f, net));
    }
  }

  predicate IsPlain(e: Event) {
    e.EditKind? || e.EditConfig? || e.SetRootAcl? || e.SetAcl? || e.DeleteAcl?
  }

  lemma PlainMoves(s: State, e: Event)
    requires Inv(s) && IsPlain(e)
    ensures Moved(s, MovesOf(s, e), Step(s, e))
  {
    StayedPut(s, s);
    match e {
      case EditKind(protocol, Some(cid), net) => CrudMoves(s, SetKind(protocol, cid), net);
      case EditKind(protocol, None, net) => CrudMoves(s, RemoveKind(protocol), net);
      case EditConfig(key, value, net) => CrudMoves(s, ConfigEdit(key, value), net);
      case SetRootAcl(cid, fetchOk, net) => RootAclMoves(s, cid, fetchOk, net);
      case SetAcl(name, cid, fetchOk, net) => NamedAclMoves(s, name, cid, fetchOk, net);
      case DeleteAcl(name, net) => CrudMoves(s, RemoveAclLink(name), net);
    }
  }

  lemma RootAclMoves(s: State, cid: Cid, fetchOk: bool, net: Net)
    requires Inv(s)
    ensures Moved(s, MovesOf(s, SetRootAcl(cid, fetchOk, net)), OnSetRootAcl(s, cid, fetchOk, net))
  {
    StayedPut(s, s);
    CrudMoves(s, SetRootAclLink(cid), net);
  }

  lemma NamedAclMoves(s: State, name: string, cid: Cid, fetchOk: bool, net: Net)
    requires Inv(s)
    ensures Moved(s, MovesOf(s, SetAcl(name, cid, fetchOk, net)), OnSetAcl(s, name, cid, fetchOk, net))
  {
    StayedPut(s, s);
    CrudMoves(s, SetAclLink(name, cid), net);
  }

  lemma SetEntityAclMoves(s: State, name: string, acl: Option<string>, readOk: bool, nodePutOk: bool, net: Net)
    requires Inv(s)
    ensures Moved(s, MovesOf(s, SetEntityAcl(name, acl, readOk, nodePutOk, net)), OnSetEntityAcl(s, name, acl, readOk, nodePutOk, net))
  {
    StayedPut(s, s);
    if AclNode(s, name, acl, readOk, nodePutOk).Some? {
      var node := AclNode(s, name, acl, readOk, nodePutOk).value;
      PutThenCommit(s, EntityBlock(node), SetEntityLink(name, s.kubo.cidOf(EntityBlock(node))), net);
    }
  }

  lemma DispatchMoves(s: State, caller: string, creates: seq<Create>, deletes: seq<string>)
    requires Inv(s)
    ensures Moved(s, MovesOf(s, Dispatch(caller, creates, deletes)), OnDispatch(s, caller, creates, deletes))
  {
    StayedPut(s, s);
    if caller in s.registry {
      CreateEachMovesHead(s, s.registry[caller], creates);
      DeleteEachFrame(CreateEach(s, s.registry[caller], creates), s.registry[caller], deletes);
    }
  }

  lemma UpsertMoves(s: State, e: Event)
    requires Inv(s) && e.UpsertEntity?
    ensures Moved(s, MovesOf(s, e), Step(s, e))
  {
    StayedPut(s, s);
    CrudMoves(s, SetEntityLink(e.name, e.cid), e.net);
  }

  /** Whatever fails, one event takes the head along its own committed edits. */
  lemma StepMoves(s: State, e: Event)
    requires Inv(s)
    ensures Moved(s, MovesOf(s, e), Step(s, e))
  {
    match e {
      case UpsertEntity(_, _, _, _, _, _) => UpsertMoves(s, e);
      case DeleteEntity(name, net) => CrudMoves(s.(registry := s.registry - {name}), RemoveEntityLink(name), net);
      case SetEntityAcl(name, acl, readOk, nodePutOk, net) => SetEntityAclMoves(s, name, acl, readOk, nodePutOk, net);
      case Dispatch(caller, creates, deletes) => DispatchMoves(s, caller, creates, deletes);
      case ShutdownSave(order, f, net) => ShutdownMoves(s, order, f, net);
      case Claimed(_) => StayedPut(s, Step(s, e));
      case Published(block) => PutMovesNothing(s, block);
      case _ => PlainMoves(s, e);
    }
  }

  /** Over any run, with any failures, the head resolves and has made exactly the
      committed moves, one after the other. */
  lemma {:induction false} RunIsLinear(s: State, es: seq<Event>)
    requires Inv(s)
    ensures Moved(s, RunMoves(s, es), Run(s, es))
    decreases |es|
  {
    if es == [] {
      StayedPut(s, s);
    } else {
      var before := es[..|es| - 1];
      RunIsLinear(s, before);
      StepMoves(Run(s, before), es[|es| - 1]);
      MovedTwice(s, RunMoves(s, before), Run(s, before), MovesOf(Run(s, before), es[|es| - 1]), Run(s, es));
    }
  }

  lemma {:induction false} LineageFoldsEdits(cidOf: Block -> Cid, h: Lineage, mvs: seq<Move>)
    ensures MoveAll(cidOf, h, mvs).manifest == FoldEdits(h.manifest, mvs)
    decreases |mvs|
  {
    if mvs != [] {
      LineageFoldsEdits(cidOf, h, mvs[..|mvs| - 1]);
    }
  }

  lemma MovedFold(s: State, mvs: seq<Move>, t: State)
    requires Moved(s, mvs, t) && s.head.Some?
    ensures HeadManifest(t) == Some(FoldEdits(HeadManifest(s).value, mvs))
  {
    LineageFoldsEdits(s.kubo.cidOf, LineageOf(s), mvs);
  }

  /** The manifest behind the head is the starting one with every committed edit
      applied in order; no edit is lost, doubled or applied to an older manifest. */
  lemma HeadIsFoldOfEdits(s: State, es: seq<Event>)
    requires Inv(s) && s.head.Some?
    ensures Run(s, es).head.Some?
    ensures HeadManifest(Run(s, es)) == Some(FoldEdits(HeadManifest(s).value, RunMoves(s, es)))
  {
    RunIsLinear(s, es);
    MovedFold(s, RunMoves(s, es), Run(s, es));
  }

  // ── The kinds behind the head ───────────────────────────────────────────────

  ghost function FoldKinds(v: Trie.Links, mvs: seq<Move>): Trie.Links
    decreases |mvs|
  {
    if mvs == [] then v else
      var before := FoldKinds(v, mvs[..|mvs| - 1]);
      match mvs[|mvs| - 1].edit
      case SetKind(protocol, cid) => Trie.Put(before, Segments(protocol), cid)
      case RemoveKind(protocol) => Trie.Drop(before, Segments(protocol))
      case _ => before
  }

  lemma {:induction false} EditsKeepKindsReachable(m: Manifest, mvs: seq<Move>)
    requires Reachable(m.kinds)
    ensures Reachable(FoldEdits(m, mvs).kinds)
    ensures Trie.View(FoldEdits(m, mvs).kinds) == FoldKinds(Trie.View(m.kinds), mvs)
    decreases |mvs|
  {
    if mvs != [] {
      var before := FoldEdits(m, mvs[..|mvs| - 1]);
      EditsKeepKindsReachable(m, mvs[..|mvs| - 1]);
      match mvs[|mvs| - 1].edit {
        case SetKind(protocol, cid) => InsertReachable(before.kinds, protocol, cid);
        case RemoveKind(protocol) => RemoveReachable(before.kinds, protocol);
        case _ =>
      }
    }
  }

  /** After any run the head's kinds are the starting ones under the committed
      upserts and deletes, in a tree whose listing finds every one of them
      (`ProtocolIds.IterationIsComplete`). */
  lemma RunKeepsKinds(s: State, es: seq<Event>)
    requires Inv(s) && s.head.Some? && Reachable(HeadManifest(s).value.kinds)
    ensures HeadManifest(Run(s, es)).Some?
    ensures Reachable(HeadManifest(Run(s, es)).value.kinds)
    ensures Trie.View(HeadManifest(Run(s, es)).value.kinds)
         == FoldKinds(Trie.View(HeadManifest(s).value.kinds), RunMoves(s, es))
  {
    HeadIsFoldOfEdits(s, es);
    EditsKeepKindsReachable(HeadManifest(s).value, RunMoves(s, es));
  }

  // ── Pins along a lineage ────────────────────────────────────────────────────

  /** Whether the i-th pin call succeeds. */
  ghost predicate PinOkAt(cidOf: Block -> Cid, h: Lineage, mvs: seq<Move>, i: int)
    requires 0 <= i < |mvs|
  {
    var before := MoveAll(cidOf, h, mvs[..i]);
    PinOk(before.pins, before.cid, mvs[i].pin)
  }

  ghost function HeadAt(cidOf: Block -> Cid, h: Lineage, mvs: seq<Move>, i: int): Cid
    requires 0 <= i <= |mvs|
  {
    MoveAll(cidOf, h, mvs[..i]).cid
  }

  /** The i-th head is still pinned at the end on its own account: it was pinned
      when it became the head, and since then no call that should have moved its
      pin on succeeded, neither the first nor any made after coming back to it. */
  ghost predicate Kept(cidOf: Block -> Cid, h: Lineage, mvs: seq<Move>, i: int)
    requires 1 <= i <= |mvs|
  {
    && PinOkAt(cidOf, h, mvs, i - 1)
    && forall j :: i <= j < |mvs| && HeadAt(cidOf, h, mvs, j) == HeadAt(cidOf, h, mvs, i) ==> !PinOkAt(cidOf, h, mvs, j)
  }

  ghost predicate KeptAs(cidOf: Block -> Cid, h: Lineage, mvs: seq<Move>, i: int, c: Cid) {
    1 <= i <= |mvs| && Kept(cidOf, h, mvs, i) && HeadAt(cidOf, h, mvs, i) == c
  }

  /** No pin call moves a pin away from `c`. */
  ghost predicate NeverMoved(cidOf: Block -> Cid, h: Lineage, mvs: seq<Move>, c: Cid) {
    forall j :: 0 <= j < |mvs| && HeadAt(cidOf, h, mvs, j) == c ==> !PinOkAt(cidOf, h, mvs, j)
  }

  ghost predicate PinnedAtEnd(cidOf: Block -> Cid, h: Lineage, mvs: seq<Move>, c: Cid) {
    (c in h.pins && NeverMoved(cidOf, h, mvs, c)) || exists i :: KeptAs(cidOf, h, mvs, i, c)
  }

  /** Whatever was pinned at the start, and whatever calls fail: exactly which
      roots are pinned at the end, also when a lineage comes back to an earlier
      manifest. */
  lemma {:induction false} PinsAreKeptHeads(cidOf: Block -> Cid, h: Lineage, mvs: seq<Move>, c: Cid)
    ensures c in MoveAll(cidOf, h, mvs).pins <==> PinnedAtEnd(cidOf, h, mvs, c)
    decreases |mvs|
  {
    if mvs != [] {
      PinsAreKeptHeads(cidOf, h, mvs[..|mvs| - 1], c);
      OneMorePin(cidOf, h, mvs, c);
    }
  }

  lemma SameUpTo(cidOf: Block -> Cid, h: Lineage, mvs: seq<Move>, n: int, j: int)
    requires 0 <= j <= n <= |mvs|
    ensures HeadAt(cidOf, h, mvs[..n], j) == HeadAt(cidOf, h, mvs, j)
    ensures j < n ==> (PinOkAt(cidOf, h, mvs[..n], j) <==> PinOkAt(cidOf, h, mvs, j))
  {
    assert mvs[..n][..j] == mvs[..j];
  }

  /** One more call keeps what was kept, except the head it moves the pin from. */
  lemma KeptAfterOneMore(cidOf: Block -> Cid, h: Lineage, mvs: seq<Move>, i: int)
    requires mvs != [] && 1 <= i < |mvs|
    ensures var n := |mvs| - 1;
      Kept(cidOf, h, mvs, i) <==>
        Kept(cidOf, h, mvs[..n], i) && !(PinOkAt(cidOf, h, mvs, n) && HeadAt(cidOf, h, mvs, i) == HeadAt(cidOf, h, mvs, n))
  {
    var n := |mvs| - 1;
    forall j | 0 <= j <= n
      ensures HeadAt(cidOf, h, mvs[..n], j) == HeadAt(cidOf, h, mvs, j)
      ensures j < n ==> (PinOkAt(cidOf, h, mvs[..n], j) <==> PinOkAt(cidOf, h, mvs, j))
    {
      SameUpTo(cidOf, h, mvs, n, j);
    }
  }

  lemma OneMorePin(cidOf: Block -> Cid, h: Lineage, mvs: seq<Move>, c: Cid)
    requires mvs != []
    requires c in MoveAll(cidOf, h, mvs[..|mvs| - 1]).pins <==> PinnedAtEnd(cidOf, h, mvs[..|mvs| - 1], c)
    ensures c in MoveAll(cidOf, h, mvs).pins <==> PinnedAtEnd(cidOf, h, mvs, c)
  {
    var n := |mvs| - 1;
    assert mvs[..n + 1] == mvs;
    NeverMovedOneMore(cidOf, h, mvs, c);
    KeptOneMore(cidOf, h, mvs, c);
    hide NeverMoved, KeptAs;
  }

  lemma NeverMovedOneMore(cidOf: Block -> Cid, h: Lineage, mvs: seq<Move>, c: Cid)
    requires mvs != []
    ensures var n := |mvs| - 1;
      NeverMoved(cidOf, h, mvs, c) <==>
        NeverMoved(cidOf, h, mvs[..n], c) && !(PinOkAt(cidOf, h, mvs, n) && c == HeadAt(cidOf, h, mvs, n))
  {
    var n := |mvs| - 1;
    forall j | 0 <= j < n
      ensures HeadAt(cidOf, h, mvs[..n], j) == HeadAt(cidOf, h, mvs, j)
      ensures PinOkAt(cidOf, h, mvs[..n], j) <==> PinOkAt(cidOf, h, mvs, j)
    {
      SameUpTo(cidOf, h, mvs, n, j);
    }
  }

  lemma KeptOneMore(cidOf: Block -> Cid, h: Lineage, mvs: seq<Move>, c: Cid)
    requires mvs != []
    ensures var n := |mvs| - 1;
      (exists i :: KeptAs(cidOf, h, mvs, i, c)) <==>
        || ((exists i :: KeptAs(cidOf, h, mvs[..n], i, c)) && !(PinOkAt(cidOf, h, mvs, n) && c == HeadAt(cidOf, h, mvs, n)))
        || (PinOkAt(cidOf, h, mvs, n) && c == HeadAt(cidOf, h, mvs, n + 1))
  {
    var n := |mvs| - 1;
    forall i | 1 <= i <= n
      ensures KeptAs(cidOf, h, mvs, i, c) <==>
                KeptAs(cidOf, h, mvs[..n], i, c) && !(PinOkAt(cidOf, h, mvs, n) && c == HeadAt(cidOf, h, mvs, n))
    {
      KeptAfterOneMore(cidOf, h, mvs, i);
      SameUpTo(cidOf, h, mvs, n, i);
    }
    assert KeptAs(cidOf, h, mvs, n + 1, c) <==> PinOkAt(cidOf, h, mvs, n) && c == HeadAt(cidOf, h, mvs, n + 1);
    if i :| KeptAs(cidOf, h, mvs[..n], i, c) {
      assert (PinOkAt(cidOf, h, mvs, n) && c == HeadAt(cidOf, h, mvs, n)) || KeptAs(cidOf, h, mvs, i, c);
    }
  }

  /** `c` was the head at some time before the end. */
  ghost predicate PassedThrough(cidOf: Block -> Cid, h: Lineage, mvs: seq<Move>, c: Cid) {
    exists j :: 0 <= j < |mvs| && HeadAt(cidOf, h, mvs, j) == c
  }

  /** When no pin call fails, the head is pinned, and besides it exactly what was
      pinned at the start and never was the head: of all roots in between, none. */
  lemma OnlyHeadPinned(cidOf: Block -> Cid, h: Lineage, mvs: seq<Move>, c: Cid)
    requires mvs != [] && forall i :: 0 <= i < |mvs| ==> PinOkAt(cidOf, h, mvs, i)
    ensures var end := MoveAll(cidOf, h, mvs);
      c in end.pins <==> c == end.cid || (c in h.pins && !PassedThrough(cidOf, h, mvs, c))
  {
    var n := |mvs|;
    assert mvs[..n] == mvs;
    PinsAreKeptHeads(cidOf, h, mvs, c);
    assert NeverMoved(cidOf, h, mvs, c) <==> !PassedThrough(cidOf, h, mvs, c);
    forall i ensures KeptAs(cidOf, h, mvs, i, c) <==> i == n && c == HeadAt(cidOf, h, mvs, n) {
      if 1 <= i < n {
        assert PinOkAt(cidOf, h, mvs, i);
      } else if i == n {
        assert PinOkAt(cidOf, h, mvs, n - 1);
      }
    }
    assert c == HeadAt(cidOf, h, mvs, n) <==> KeptAs(cidOf, h, mvs, n, c);
  }

  /** The same for a run of the daemon, whatever else its store has pinned. */
  lemma RunPinsOnlyHead(s: State, es: seq<Event>, c: Cid)
    requires Inv(s) && s.head.Some? && RunMoves(s, es) != []
    requires forall i :: 0 <= i < |RunMoves(s, es)| ==> PinOkAt(s.kubo.cidOf, LineageOf(s), RunMoves(s, es), i)
    ensures Run(s, es).head.Some?
    ensures c in Run(s, es).kubo.pins <==>
              || c == Run(s, es).head.value
              || (c in s.kubo.pins && !PassedThrough(s.kubo.cidOf, LineageOf(s), RunMoves(s, es), c))
  {
    RunIsLinear(s, es);
    OnlyHeadPinned(s.kubo.cidOf, LineageOf(s), RunMoves(s, es), c);
  }

  /** The pins of any run at all. */
  lemma RunPins(s: State, es: seq<Event>, c: Cid)
    requires Inv(s) && s.head.Some?
    ensures c in Run(s, es).kubo.pins <==> PinnedAtEnd(s.kubo.cidOf, LineageOf(s), RunMoves(s, es), c)
  {
    RunIsLinear(s, es);
    PinsAreKeptHeads(s.kubo.cidOf, LineageOf(s), RunMoves(s, es), c);
  }

  /** After any history of failed pin calls, the next one that succeeds pins the
      head of that moment: by moving the pin if the previous head had it, and
      otherwise by a fresh pin that leaves every other pin alone. */
  lemma NextSuccessPinsHead(s: State, es: seq<Event>)
    requires Inv(s) && s.head.Some?
    requires var mvs := RunMoves(s, es); mvs != [] && PinOkAt(s.kubo.cidOf, LineageOf(s), mvs, |mvs| - 1)
    ensures var t := Run(s, es);
      var before := MoveAll(s.kubo.cidOf, LineageOf(s), RunMoves(s, es)[..|RunMoves(s, es)| - 1]);
      && t.head.Some? && t.head.value in t.kubo.pins
      && (before.cid !in before.pins ==> t.kubo.pins == before.pins + {t.head.value})
  {
    RunIsLinear(s, es);
  }

  /** One move with both pin requests working is enough to have the head pinned,
      whatever failed before. */
  lemma WorkingPinPinsHead(cidOf: Block -> Cid, h: Lineage, mvs: seq<Move>)
    requires mvs != [] && mvs[|mvs| - 1].pin == PinNet(true, true)
    ensures var end := MoveAll(cidOf, h, mvs); end.cid in end.pins
  {}
}
