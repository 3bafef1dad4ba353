/** Saving every entity's state on a clean shutdown (src/bootstrap.rs). A failure
    at one entity skips that entity only. */
module Shutdown {
  import opened Text
  import opened Ipld
  import opened Plugins

  /** What asking a stateful plugin to save comes to. */
  datatype SaveOutcome = SaveFailed | SaveEmpty | Saved(state: Cid)

  /** The failures of one shutdown: per plugin, per identifier, per entity put. */
  datatype Faults = Faults(saves: string -> SaveOutcome, down: set<Cid>, puts: string -> bool)

  function SavedState(registry: Registry, name: string, f: Faults): Option<Cid> {
    if name !in registry || !registry[name].stateful || registry[name].native then None
    else match f.saves(name)
      case Saved(state) => Some(state)
      case _ => None
  }

  /** The node after a clean shutdown: new state, and `stopped` if it was running. */
  function StoppedNode(node: EntityNode, state: Cid): EntityNode {
    node.(state := Some(state), lifecycle := if node.lifecycle == Running then Stopped else node.lifecycle)
  }

  function SaveOne(k: Kubo, m: Manifest, registry: Registry, name: string, f: Faults): (Kubo, Manifest) {
    var state := SavedState(registry, name, f);
    if state.None? || name !in m.entities then (k, m)
    else
      var node := k.Without(f.down).GetEntity(m.entities[name]);
      if node.None? || !f.puts(name) then (k, m)
      else
        var block := EntityBlock(StoppedNode(node.value, state.value));
        (k.Put(block), m.(entities := m.entities[name := k.cidOf(block)]))
  }

  function SaveEach(k: Kubo, m: Manifest, registry: Registry, order: seq<string>, f: Faults): (Kubo, Manifest)
    decreases |order|
  {
    if order == [] then (k, m)
    else
      var (k', m') := SaveEach(k, m, registry, order[..|order| - 1], f);
      SaveOne(k', m', registry, order[|order| - 1], f)
  }

  // ── Walks ───────────────────────────────────────────────────────────────────

  ghost predicate Distinct(order: seq<string>) {
    forall i, j :: 0 <= i < j < |order| ==> order[i] != order[j]
  }

  /** One way to walk the registry, which has no order of its own. */
  ghost predicate Walk(order: seq<string>, registry: Registry) {
    Distinct(order) && forall n :: n in order <==> n in registry
  }

  lemma LastOfDistinct(order: seq<string>)
    requires order != [] && Distinct(order)
    ensures var n := |order| - 1; Distinct(order[..n]) && order[n] !in order[..n]
    ensures forall x :: x in order <==> x in order[..|order| - 1] || x == order[|order| - 1]
  {
    var n := |order| - 1;
    assert order == order[..n] + [order[n]];
  }

  // ── What one save does ──────────────────────────────────────────────────────

  /** This entity's node is replaced: it is registered and stateful, its save gave
      a CID, the manifest names it, its node is fetched and the new one stored. */
  ghost predicate Updates(k: Kubo, m: Manifest, registry: Registry, f: Faults, name: string) {
    && SavedState(registry, name, f).Some?
    && name in m.entities && m.entities[name] !in f.down && k.GetEntity(m.entities[name]).Some?
    && f.puts(name)
  }

  ghost function NewNode(k: Kubo, m: Manifest, registry: Registry, f: Faults, name: string): EntityNode
    requires Updates(k, m, registry, f, name)
  {
    StoppedNode(k.GetEntity(m.entities[name]).value, SavedState(registry, name, f).value)
  }

  lemma SaveOneFrame(k: Kubo, m: Manifest, registry: Registry, name: string, f: Faults)
    requires k.Valid()
    ensures var (k', m') := SaveOne(k, m, registry, name, f);
      && k'.Valid() && Grows(k, k') && k'.pins == k.pins
      && (!Updates(k, m, registry, f, name) ==> k' == k && m' == m)
      && (Updates(k, m, registry, f, name) ==>
            var block := EntityBlock(NewNode(k, m, registry, f, name));
            k' == k.Put(block) && k'.Has(block) && m' == m.(entities := m.entities[name := k.cidOf(block)]))
  {
    if Updates(k, m, registry, f, name) {
      PutGrows(k, EntityBlock(NewNode(k, m, registry, f, name)));
    }
  }

  // ── The frame, for any failures and any order ───────────────────────────────

  /** The link of `n` is as it was, or `n` was walked, gave a state, had its old
      node fetched and its new one stored; the new node is then the old one with
      that state, stopped if it was running. */
  ghost predicate Framed(registry: Registry, order: seq<string>, f: Faults, k': Kubo, was: Cid, now: Cid, n: string) {
    now == was
    || (&& n in order && SavedState(registry, n, f).Some? && f.puts(n) && was !in f.down
        && k'.GetEntity(was).Some?
        && k'.GetEntity(now) == Some(StoppedNode(k'.GetEntity(was).value, SavedState(registry, n, f).value)))
  }

  function AfterSave(node: EntityNode, registry: Registry, f: Faults, was: Cid, n: string): EntityNode {
    var state := SavedState(registry, n, f);
    if state.Some? && f.puts(n) && was !in f.down then StoppedNode(node, state.value) else node
  }

  /** And when the old node was in the store from the start, the update happens
      exactly if the rest works, from that very node. */
  ghost predicate EntityFrame(k: Kubo, registry: Registry, order: seq<string>, f: Faults, k': Kubo, was: Cid, now: Cid, n: string) {
    && Framed(registry, order, f, k', was, now, n)
    && (n !in order ==> now == was)
    && (n in order && k.GetEntity(was).Some? ==>
          k'.GetEntity(now) == Some(AfterSave(k.GetEntity(was).value, registry, f, was, n)))
  }

  lemma {:induction false} SaveEachGrows(k: Kubo, m: Manifest, registry: Registry, order: seq<string>, f: Faults)
    requires k.Valid()
    ensures var (k', m') := SaveEach(k, m, registry, order, f);
      && k'.Valid() && Grows(k, k') && k'.pins == k.pins
      && m' == m.(entities := m'.entities) && m'.entities.Keys == m.entities.Keys
    decreases |order|
  {
    if order != [] {
      var before, name := order[..|order| - 1], order[|order| - 1];
      SaveEachGrows(k, m, registry, before, f);
      var (k1, m1) := SaveEach(k, m, registry, before, f);
      SaveOneFrame(k1, m1, registry, name, f);
    }
  }

  /** The new manifest keeps the names and every other field; the store only grows
      and no pin moves; and every entity is framed. */
  lemma {:induction false} ShutdownFrame(k: Kubo, m: Manifest, registry: Registry, order: seq<string>, f: Faults)
    requires k.Valid() && Distinct(order)
    ensures var (k', m') := SaveEach(k, m, registry, order, f);
      && k'.Valid() && Grows(k, k') && k'.pins == k.pins
      && m' == m.(entities := m'.entities) && m'.entities.Keys == m.entities.Keys
      && forall n :: n in m.entities ==> EntityFrame(k, registry, order, f, k', m.entities[n], m'.entities[n], n)
    decreases |order|
  {
    SaveEachGrows(k, m, registry, order, f);
    if order != [] {
      var before, name := order[..|order| - 1], order[|order| - 1];
      LastOfDistinct(order);
      assert order == before + [name];
      ShutdownFrame(k, m, registry, before, f);
      var (k1, m1) := SaveEach(k, m, registry, before, f);
      SaveOneFrame(k1, m1, registry, name, f);
      var (k', m') := SaveOne(k1, m1, registry, name, f);
      hide EntityFrame;
      forall n | n in m.entities ensures EntityFrame(k, registry, order, f, k', m.entities[n], m'.entities[n], n) {
        var was := m.entities[n];
        if n == name {
          UnwalkedLink(k, registry, before, f, k1, was, m1.entities[n], n);
          FrameOwn(k, k1, m1, registry, before, name, f, was);
        } else {
          FrameOther(k, k1, k', registry, before, name, f, was, m1.entities[n], n);
        }
      }
    }
  }

  lemma UnwalkedLink(k: Kubo, registry: Registry, order: seq<string>, f: Faults, k': Kubo, was: Cid, now: Cid, n: string)
    requires EntityFrame(k, registry, order, f, k', was, now, n) && n !in order
    ensures now == was
  {}

  lemma FrameOther(k: Kubo, k1: Kubo, k': Kubo, registry: Registry, before: seq<string>, name: string, f: Faults,
                   was: Cid, now: Cid, n: string)
    requires Grows(k, k1) && Grows(k1, k') && n != name
    requires EntityFrame(k, registry, before, f, k1, was, now, n)
    ensures EntityFrame(k, registry, before + [name], f, k', was, now, n)
  {}

  lemma FrameOwn(k: Kubo, k1: Kubo, m1: Manifest, registry: Registry, before: seq<string>, name: string, f: Faults, was: Cid)
    requires k1.Valid() && Grows(k, k1) && name !in before
    requires name in m1.entities && m1.entities[name] == was
    ensures var (k', m') := SaveOne(k1, m1, registry, name, f);
      name in m'.entities && EntityFrame(k, registry, before + [name], f, k', was, m'.entities[name], name)
  {
    SaveOneFrame(k1, m1, registry, name, f);
    assert name in before + [name];
  }

  /** Field by field: the saved state, `stopped` if and only if the old node was
      running or stopped before, and nothing else. */
  ghost predicate SavedFrom(was: EntityNode, now: EntityNode, state: Cid) {
    && now.state == Some(state)
    && now.lifecycle == (if was.lifecycle == Running then Stopped else was.lifecycle)
    && now.kind == was.kind && now.behaviour == was.behaviour && now.acl == was.acl
    && now.parent == was.parent && now.displayLabel == was.displayLabel
  }

  /** The save of this registered plugin gave this state. */
  ghost predicate GaveState(registry: Registry, f: Faults, n: string, state: Cid) {
    n in registry && registry[n].stateful && !registry[n].native && f.saves(n) == Saved(state)
  }

  /** What the shutdown makes of one entity, in terms of its fields: a changed link
      leads to a node saved from the old one; a stateless, native or unregistered
      entity keeps its link; and an entity whose node is in the store, whose save
      gave a state and whose fetch and put work is saved. */
  lemma SavedFields(k: Kubo, m: Manifest, registry: Registry, order: seq<string>, f: Faults, n: string)
    requires k.Valid() && Walk(order, registry) && n in m.entities
    ensures var (k', m') := SaveEach(k, m, registry, order, f);
      && n in m'.entities
      && (m'.entities[n] != m.entities[n] ==>
            && k'.GetEntity(m.entities[n]).Some? && k'.GetEntity(m'.entities[n]).Some?
            && exists state :: GaveState(registry, f, n, state)
                 && SavedFrom(k'.GetEntity(m.entities[n]).value, k'.GetEntity(m'.entities[n]).value, state))
      && (n !in registry || !registry[n].stateful || registry[n].native ==> m'.entities[n] == m.entities[n])
      && (forall state :: GaveState(registry, f, n, state) && f.puts(n) && m.entities[n] !in f.down && k.GetEntity(m.entities[n]).Some? ==>
            && k'.GetEntity(m'.entities[n]).Some?
            && SavedFrom(k.GetEntity(m.entities[n]).value, k'.GetEntity(m'.entities[n]).value, state))
  {
    ShutdownFrame(k, m, registry, order, f);
    assert forall state :: GaveState(registry, f, n, state) <==> SavedState(registry, n, f) == Some(state);
    hide SaveEach, GaveState;
  }

  // ── When the order shows ────────────────────────────────────────────────────

  /** `b` links to nothing, until the new node of `a` lands on exactly that
      identifier; and `b` would put another state into it. */
  ghost predicate Clash(k: Kubo, m: Manifest, registry: Registry, f: Faults, a: string, b: string) {
    && Updates(k, m, registry, f, a)
    && SavedState(registry, b, f).Some? && f.puts(b)
    && b in m.entities && m.entities[b] !in k.blocks && m.entities[b] !in f.down
    && m.entities[b] == k.cidOf(EntityBlock(NewNode(k, m, registry, f, a)))
    && SavedState(registry, b, f) != SavedState(registry, a, f)
  }

  ghost predicate SomeClash(k: Kubo, m: Manifest, registry: Registry, f: Faults) {
    exists a, b :: Clash(k, m, registry, f, a, b)
  }

  /** The entity links when all updates happen at once. */
  ghost function SavedLinks(k: Kubo, m: Manifest, registry: Registry, names: seq<string>, f: Faults): map<string, Cid> {
    map n | n in m.entities ::
      if n in names && Updates(k, m, registry, f, n) then k.cidOf(EntityBlock(NewNode(k, m, registry, f, n)))
      else m.entities[n]
  }

  /** Every block is an old one or the new node of an updated entity. */
  ghost predicate OnlyNewNodes(k: Kubo, m: Manifest, registry: Registry, f: Faults, k': Kubo) {
    forall c :: c in k'.blocks && c !in k.blocks ==> NewNodeAt(k, m, registry, f, k', c)
  }

  ghost predicate NewNodeAt(k: Kubo, m: Manifest, registry: Registry, f: Faults, k': Kubo, c: Cid)
    requires c in k'.blocks
  {
    exists a :: Updates(k, m, registry, f, a) && k'.blocks[c] == EntityBlock(NewNode(k, m, registry, f, a))
  }

  /** Without a clash, walking in any order is replacing all links at once. */
  lemma {:induction false} SavingIsOrderFree(k: Kubo, m: Manifest, registry: Registry, order: seq<string>, f: Faults)
    requires k.Valid() && Distinct(order)
    requires !SomeClash(k, m, registry, f)
    ensures var (k', m') := SaveEach(k, m, registry, order, f);
      && m' == m.(entities := SavedLinks(k, m, registry, order, f))
      && OnlyNewNodes(k, m, registry, f, k')
    decreases |order|
  {
    if order == [] {
      assert SavedLinks(k, m, registry, [], f) == m.entities;
    } else {
      var before, name := order[..|order| - 1], order[|order| - 1];
      LastOfDistinct(order);
      SavingIsOrderFree(k, m, registry, before, f);
      ShutdownFrame(k, m, registry, before, f);
      var (k1, m1) := SaveEach(k, m, registry, before, f);
      SaveNext(k, m, k1, m1, registry, name, f);
      forall n ensures n in order <==> n in before || n == name {}
      OneMoreLink(k, m, registry, before, name, order, f);
    }
  }

  /** What the next save does is what it would have done at the start; a link that
      has come to resolve meanwhile leads to a node that is already as it should be. */
  lemma SaveNext(k: Kubo, m: Manifest, k1: Kubo, m1: Manifest, registry: Registry, name: string, f: Faults)
    requires k.Valid() && k1.Valid() && Grows(k, k1) && OnlyNewNodes(k, m, registry, f, k1)
    requires m1 == m.(entities := m1.entities) && m1.entities.Keys == m.entities.Keys
    requires name in m.entities ==> m1.entities[name] == m.entities[name]
    requires !SomeClash(k, m, registry, f)
    ensures var (k', m') := SaveOne(k1, m1, registry, name, f);
      && OnlyNewNodes(k, m, registry, f, k')
      && m' == if Updates(k, m, registry, f, name)
               then m1.(entities := m1.entities[name := k.cidOf(EntityBlock(NewNode(k, m, registry, f, name)))]) else m1
  {
    SaveOneFrame(k1, m1, registry, name, f);
    var (k', m') := SaveOne(k1, m1, registry, name, f);
    if Updates(k, m, registry, f, name) {
      assert NewNode(k1, m1, registry, f, name) == NewNode(k, m, registry, f, name);
      forall c | c in k'.blocks && c !in k.blocks ensures NewNodeAt(k, m, registry, f, k', c) {
        if c in k1.blocks && c != k.cidOf(EntityBlock(NewNode(k, m, registry, f, name))) {
          assert NewNodeAt(k, m, registry, f, k1, c);
        }
      }
    } else if Updates(k1, m1, registry, f, name) {
      WokenLinkStays(k, m, k1, m1, registry, name, f);
    }
  }

  lemma WokenLinkStays(k: Kubo, m: Manifest, k1: Kubo, m1: Manifest, registry: Registry, name: string, f: Faults)
    requires k1.Valid() && Grows(k, k1) && OnlyNewNodes(k, m, registry, f, k1)
    requires name in m.entities && name in m1.entities && m1.entities[name] == m.entities[name]
    requires Updates(k1, m1, registry, f, name) && !Updates(k, m, registry, f, name)
    requires !SomeClash(k, m, registry, f)
    ensures SaveOne(k1, m1, registry, name, f) == (k1, m1)
  {
    var c := m.entities[name];
    assert NewNodeAt(k, m, registry, f, k1, c);
    var a :| Updates(k, m, registry, f, a) && k1.blocks[c] == EntityBlock(NewNode(k, m, registry, f, a));
    assert !Clash(k, m, registry, f, a, name);
    assert NewNode(k1, m1, registry, f, name) == NewNode(k, m, registry, f, a);
    assert k1.Put(k1.blocks[c]) == k1;
    assert m1.entities[name := c] == m1.entities;
  }

  lemma OneMoreLink(k: Kubo, m: Manifest, registry: Registry, before: seq<string>, name: string, order: seq<string>, f: Faults)
    requires name !in before && forall n :: n in order <==> n in before || n == name
    ensures var links := SavedLinks(k, m, registry, before, f);
      SavedLinks(k, m, registry, order, f)
      == if Updates(k, m, registry, f, name) then links[name := k.cidOf(EntityBlock(NewNode(k, m, registry, f, name)))] else links
  {}

  lemma {:induction false} SaveEachConcat(k: Kubo, m: Manifest, registry: Registry, x: seq<string>, y: seq<string>, f: Faults)
    ensures SaveEach(k, m, registry, x + y, f) ==
            var (k1, m1) := SaveEach(k, m, registry, x, f); SaveEach(k1, m1, registry, y, f)
    decreases |y|
  {
    if y == [] {
      assert x + y == x;
    } else {
      assert (x + y)[..|x + y| - 1] == x + y[..|y| - 1];
      SaveEachConcat(k, m, registry, x, y[..|y| - 1], f);
    }
  }

  lemma SaveFirstTwo(k: Kubo, m: Manifest, registry: Registry, x: string, y: string, rest: seq<string>, f: Faults)
    ensures SaveEach(k, m, registry, [x, y] + rest, f) ==
            var (k1, m1) := SaveOne(k, m, registry, x, f);
            var (k2, m2) := SaveOne(k1, m1, registry, y, f);
            SaveEach(k2, m2, registry, rest, f)
  {
    assert [x, y][..1] == [x] && [x][..0] == [];
    assert SaveEach(k, m, registry, [x], f) == SaveOne(k, m, registry, x, f);
    SaveEachConcat(k, m, registry, [x, y], rest, f);
  }

  /** With a clash, `a` before `b` changes the link of `b`, and `b` before `a` does
      not; whatever is walked afterwards leaves that link alone. */
  lemma ClashShows(k: Kubo, m: Manifest, registry: Registry, f: Faults, a: string, b: string, rest: seq<string>)
    requires k.Valid() && Clash(k, m, registry, f, a, b)
    requires Distinct(rest) && b !in rest
    ensures SaveEach(k, m, registry, [a, b] + rest, f).1 != SaveEach(k, m, registry, [b, a] + rest, f).1
  {
    ClashedFirst(k, m, registry, f, a, b, rest);
    ClashedLast(k, m, registry, f, a, b, rest);
  }

  lemma ClashedFirst(k: Kubo, m: Manifest, registry: Registry, f: Faults, a: string, b: string, rest: seq<string>)
    requires k.Valid() && Clash(k, m, registry, f, a, b)
    requires Distinct(rest) && b !in rest
    ensures var m' := SaveEach(k, m, registry, [b, a] + rest, f).1; b in m'.entities && m'.entities[b] == m.entities[b]
  {
    SaveFirstTwo(k, m, registry, b, a, rest, f);
    SaveOneFrame(k, m, registry, b, f);
    SaveOneFrame(k, m, registry, a, f);
    var (k1, m1) := SaveOne(k, m, registry, a, f);
    ShutdownFrame(k1, m1, registry, rest, f);
  }

  lemma ClashedLast(k: Kubo, m: Manifest, registry: Registry, f: Faults, a: string, b: string, rest: seq<string>)
    requires k.Valid() && Clash(k, m, registry, f, a, b)
    requires Distinct(rest) && b !in rest
    ensures var m' := SaveEach(k, m, registry, [a, b] + rest, f).1; b in m'.entities && m'.entities[b] != m.entities[b]
  {
    SaveFirstTwo(k, m, registry, a, b, rest, f);
    SaveOneFrame(k, m, registry, a, f);
    var (k1, m1) := SaveOne(k, m, registry, a, f);
    SaveOneFrame(k1, m1, registry, b, f);
    var (k2, m2) := SaveOne(k1, m1, registry, b, f);
    ShutdownFrame(k2, m2, registry, rest, f);
    var first, second := NewNode(k, m, registry, f, a), NewNode(k1, m1, registry, f, b);
    assert second.state != first.state;
    assert !SameCid(k.cidOf, EntityBlock(first), EntityBlock(second));
  }

  lemma WalkFrom(registry: Registry, x: string, y: string) returns (rest: seq<string>)
    requires x in registry && y in registry && x != y
    ensures Walk([x, y] + rest, registry) && Walk([y, x] + rest, registry)
    ensures Distinct(rest) && x !in rest && y !in rest
  {
    rest := SortedKeys(registry.Keys - {x, y});
    forall i, j | 0 <= i < j < |rest| ensures rest[i] != rest[j] {
      LessTrichotomy(rest[i], rest[j]);
    }
    forall n ensures n in [x, y] + rest <==> n in registry {
      assert n in [x, y] + rest <==> n in [x, y] || n in rest;
    }
    forall n ensures n in [y, x] + rest <==> n in registry {
      assert n in [y, x] + rest <==> n in [y, x] || n in rest;
    }
  }

  /** Some two walks of the registry publish different manifests. */
  ghost predicate OrderShows(k: Kubo, m: Manifest, registry: Registry, f: Faults) {
    exists x, y :: Walk(x, registry) && Walk(y, registry) && Differ(k, m, registry, f, x, y)
  }

  ghost predicate Differ(k: Kubo, m: Manifest, registry: Registry, f: Faults, x: seq<string>, y: seq<string>) {
    SaveEach(k, m, registry, x, f).1 != SaveEach(k, m, registry, y, f).1
  }

  lemma WalksAgree(k: Kubo, m: Manifest, registry: Registry, f: Faults, x: seq<string>, y: seq<string>)
    requires k.Valid() && !SomeClash(k, m, registry, f)
    requires Walk(x, registry) && Walk(y, registry)
    ensures !Differ(k, m, registry, f, x, y)
  {
    SavingIsOrderFree(k, m, registry, x, f);
    SavingIsOrderFree(k, m, registry, y, f);
    SameNamesSameLinks(k, m, registry, x, y, f);
  }

  lemma SameNamesSameLinks(k: Kubo, m: Manifest, registry: Registry, x: seq<string>, y: seq<string>, f: Faults)
    requires forall n :: n in x <==> n in y
    ensures SavedLinks(k, m, registry, x, f) == SavedLinks(k, m, registry, y, f)
  {}

  lemma ClashMakesOrderShow(k: Kubo, m: Manifest, registry: Registry, f: Faults, a: string, b: string)
    requires k.Valid() && Clash(k, m, registry, f, a, b)
    ensures OrderShows(k, m, registry, f)
  {
    ClashingNames(k, m, registry, f, a, b);
    hide SavedState, Updates, NewNode;
    var rest := WalkFrom(registry, a, b);
    ClashShows(k, m, registry, f, a, b, rest);
    hide Clash, Walk, Distinct;
    assert Differ(k, m, registry, f, [a, b] + rest, [b, a] + rest);
  }

  lemma ClashingNames(k: Kubo, m: Manifest, registry: Registry, f: Faults, a: string, b: string)
    requires Clash(k, m, registry, f, a, b)
    ensures a in registry && b in registry && a != b
  {}

  /** The order of the walk shows if and only if two entities clash. */
  lemma OrderShowsIffClash(k: Kubo, m: Manifest, registry: Registry, f: Faults)
    requires k.Valid()
    ensures OrderShows(k, m, registry, f) <==> SomeClash(k, m, registry, f)
  {
    hide Clash, Walk, Differ;
    if SomeClash(k, m, registry, f) {
      var a, b :| Clash(k, m, registry, f, a, b);
      ClashMakesOrderShow(k, m, registry, f, a, b);
    } else {
      forall x, y | Walk(x, registry) && Walk(y, registry) ensures !Differ(k, m, registry, f, x, y) {
        WalksAgree(k, m, registry, f, x, y);
      }
    }
  }

  /** Links that resolve, or cannot be fetched at all, never clash. */
  lemma ResolvingLinksNeverClash(k: Kubo, m: Manifest, registry: Registry, f: Faults)
    requires k.Valid() && forall n :: n in m.entities ==> m.entities[n] in k.blocks || m.entities[n] in f.down
    ensures !OrderShows(k, m, registry, f)
  {
    OrderShowsIffClash(k, m, registry, f);
  }

  // ── The loop ────────────────────────────────────────────────────────────────

  /** `order` is the order in which the registry happens to be walked. */
  method SaveAllEntityStates(k: Kubo, m: Manifest, registry: Registry, order: seq<string>, f: Faults)
    returns (after: Kubo, saved: Manifest)
    requires Walk(order, registry)
    ensures (after, saved) == SaveEach(k, m, registry, order, f)
  {
    after, saved := k, m;
    for i := 0 to |order|
      invariant (after, saved) == SaveEach(k, m, registry, order[..i], f) && after.cidOf == k.cidOf
    {
      var name := order[i];
      assert name in registry;
      assert order[..i + 1][..i] == order[..i];
      assert SaveEach(k, m, registry, order[..i + 1], f) == SaveOne(after, saved, registry, name, f);
      if !registry[name].stateful || registry[name].native {
        continue;
      }
      if !f.saves(name).Saved? {
        continue;
      }
      var state := f.saves(name).state;
      if name !in saved.entities {
        continue;
      }
      var node := after.Without(f.down).GetEntity(saved.entities[name]);
      if node.None? {
        continue;
      }
      var updated := node.value.(state := Some(state));
      if updated.lifecycle == Running {
        updated := updated.(lifecycle := Stopped);
      }
      if f.puts(name) {
        after := after.Put(EntityBlock(updated));
        saved := saved.(entities := saved.entities[name := k.cidOf(EntityBlock(updated))]);
      }
    }
    assert order[..|order|] == order;
  }
}
