/** The parent relation between registered entities (src/rpc.rs). */
module Hierarchy {
  import opened Text
  import opened Ipld
  import opened Plugins
  import opened Runtime

  /** Walking up from `f` reaches an entity without a parent in `n` steps. */
  ghost predicate Rooted(reg: Registry, f: string, n: nat)
    decreases n
  {
    f in reg &&
    match reg[f].parent
    case None => n == 0
    case Some(p) => n > 0 && Rooted(reg, p, n - 1)
  }

  /** Every entity is registered under its own fragment, and walking up from it
      ends: parents are registered and there is no cycle. */
  ghost predicate Forest(reg: Registry) {
    && (forall f :: f in reg ==> reg[f].fragment == f)
    && (forall f :: f in reg ==> exists n: nat :: Rooted(reg, f, n))
  }

  /** The k-th ancestor. */
  function Ancestor(reg: Registry, f: string, k: nat): Option<string>
    decreases k
  {
    if f !in reg then None
    else if k == 0 then Some(f)
    else match reg[f].parent case None => None case Some(p) => Ancestor(reg, p, k - 1)
  }

  lemma ParentsAreRegistered(reg: Registry, f: string)
    requires Forest(reg) && f in reg && reg[f].parent.Some?
    ensures reg[f].parent.value in reg
  {
    var n: nat :| Rooted(reg, f, n);
    assert Rooted(reg, reg[f].parent.value, n - 1);
  }

  lemma {:induction false} DepthOfAncestor(reg: Registry, f: string, n: nat, k: nat)
    requires Rooted(reg, f, n) && Ancestor(reg, f, k).Some?
    ensures k <= n && Rooted(reg, Ancestor(reg, f, k).value, n - k)
    decreases k
  {
    if k > 0 {
      DepthOfAncestor(reg, reg[f].parent.value, n - 1, k - 1);
    }
  }

  lemma {:induction false} OneDepth(reg: Registry, f: string, m: nat, n: nat)
    requires Rooted(reg, f, m) && Rooted(reg, f, n)
    ensures m == n
    decreases m
  {
    if reg[f].parent.Some? {
      OneDepth(reg, reg[f].parent.value, m - 1, n - 1);
    }
  }

  /** Nobody is its own proper ancestor. */
  lemma NoCycles(reg: Registry, f: string, k: nat)
    requires Forest(reg) && f in reg && k > 0
    ensures Ancestor(reg, f, k) != Some(f)
  {
    var n: nat :| Rooted(reg, f, n);
    if Ancestor(reg, f, k) == Some(f) {
      DepthOfAncestor(reg, f, n, k);
      OneDepth(reg, f, n, n - k);
    }
  }

  // ── The same without counting steps ─────────────────────────────────────────

  ghost predicate ParentClosed(reg: Registry) {
    forall f :: f in reg && reg[f].parent.Some? ==> reg[f].parent.value in reg
  }

  ghost predicate Acyclic(reg: Registry) {
    forall f, k: nat :: f in reg && k > 0 ==> Ancestor(reg, f, k) != Some(f)
  }

  lemma {:induction false} OneStepUp(reg: Registry, f: string, k: nat, g: string)
    requires Ancestor(reg, f, k) == Some(g)
    ensures g in reg && Ancestor(reg, f, k + 1) == match reg[g].parent
                                                   case None => None
                                                   case Some(p) => Ancestor(reg, p, 0)
    decreases k
  {
    if k > 0 {
      OneStepUp(reg, reg[f].parent.value, k - 1, g);
    }
  }

  /** `g` is a proper ancestor of `f`. */
  ghost predicate Below(reg: Registry, f: string, g: string) {
    exists k: nat :: k > 0 && Ancestor(reg, f, k) == Some(g)
  }

  lemma BelowParent(reg: Registry, g: string, f: string)
    requires f in reg && reg[f].parent.Some? && reg[f].parent.value in reg && (g == f || Below(reg, g, f))
    ensures Below(reg, g, reg[f].parent.value)
  {
    var k: nat := 0;
    if g != f {
      k :| k > 0 && Ancestor(reg, g, k) == Some(f);
    }
    OneStepUp(reg, g, k, f);
    assert Ancestor(reg, g, k + 1) == Some(reg[f].parent.value);
  }

  /** Everything met on the way up has the current entity above it, so the way
      never comes back, and there are only so many entities. */
  lemma {:induction false} WalkEnds(reg: Registry, f: string, seen: set<string>) returns (n: nat)
    requires ParentClosed(reg) && Acyclic(reg) && f in reg && f !in seen && seen <= reg.Keys
    requires forall g :: g in seen ==> Below(reg, g, f)
    ensures Rooted(reg, f, n)
    decreases |reg.Keys - seen|
  {
    if reg[f].parent.None? {
      n := 0;
    } else {
      var p := reg[f].parent.value;
      forall g | g in seen + {f} ensures Below(reg, g, p) {
        BelowParent(reg, g, f);
      }
      NotBelowItself(reg, p);
      SmallerSet(reg.Keys - (seen + {f}), reg.Keys - seen, f);
      n := WalkEnds(reg, p, seen + {f});
      n := n + 1;
    }
  }

  lemma NotBelowItself(reg: Registry, p: string)
    requires Acyclic(reg) && p in reg
    ensures !Below(reg, p, p)
  {}

  lemma SmallerSet(a: set<string>, b: set<string>, x: string)
    requires x in b && a == b - {x}
    ensures |a| < |b|
  {}

  /** A forest is exactly a registry whose entities go by their own fragments, whose
      parents are registered, and in which nobody is an own proper ancestor. */
  lemma ForestIff(reg: Registry)
    ensures Forest(reg) <==> (forall f :: f in reg ==> reg[f].fragment == f) && ParentClosed(reg) && Acyclic(reg)
  {
    if Forest(reg) {
      forall f | f in reg && reg[f].parent.Some? ensures reg[f].parent.value in reg { ParentsAreRegistered(reg, f); }
      forall f, k: nat | f in reg && k > 0 ensures Ancestor(reg, f, k) != Some(f) { NoCycles(reg, f, k); }
    }
    if ParentClosed(reg) && Acyclic(reg) {
      forall f | f in reg ensures exists n: nat :: Rooted(reg, f, n) {
        var n := WalkEnds(reg, f, {});
      }
    }
  }

  // ── The registry that startup builds ────────────────────────────────────────

  /** The parent relation the stored nodes describe. */
  function StoredTree(k: Kubo, m: Manifest): Registry {
    map n | n in m.entities && k.GetEntity(m.entities[n]).Some? ::
      var node := k.GetEntity(m.entities[n]).value;
      Plugin(n, false, false, node.acl, node.parent)
  }

  function Started(k: Kubo, m: Manifest, wasm: string -> Wasm, schedulerAcl: string): Registry {
    LoadedRegistry(k, m, wasm)[SCHEDULER := NativeScheduler(schedulerAcl)]
  }

  /** Everybody with a parent in `part` is in `whole`, under the same parent. */
  ghost predicate PartOf(part: Registry, whole: Registry) {
    forall f :: f in part && part[f].parent.Some? ==> f in whole && whole[f].parent == part[f].parent
  }

  lemma {:induction false} AncestorInWhole(part: Registry, whole: Registry, f: string, k: nat, g: string)
    requires PartOf(part, whole) && Ancestor(part, f, k) == Some(g) && g in whole
    ensures Ancestor(whole, f, k) == Some(g)
    decreases k
  {
    if k > 0 {
      AncestorInWhole(part, whole, part[f].parent.value, k - 1, g);
    }
  }

  lemma PartIsAcyclic(part: Registry, whole: Registry)
    requires PartOf(part, whole) && Forest(whole)
    ensures Acyclic(part)
  {
    forall f, k: nat | f in part && k > 0 ensures Ancestor(part, f, k) != Some(f) {
      if Ancestor(part, f, k) == Some(f) {
        AncestorInWhole(part, whole, f, k, f);
        NoCycles(whole, f, k);
      }
    }
  }

  lemma StartedIsPart(k: Kubo, down: set<Cid>, m: Manifest, wasm: string -> Wasm, schedulerAcl: string)
    ensures var reg := Started(k.Without(down), m, wasm, schedulerAcl);
      PartOf(reg, StoredTree(k, m)) && forall f :: f in reg ==> reg[f].fragment == f
  {}

  /** Whatever cannot be fetched or loaded: when the stored nodes describe a forest,
      startup builds one if and only if it loads the parent of everybody it loads. */
  lemma StartedForestIff(k: Kubo, down: set<Cid>, m: Manifest, wasm: string -> Wasm, schedulerAcl: string)
    requires Forest(StoredTree(k, m))
    ensures Forest(Started(k.Without(down), m, wasm, schedulerAcl))
        <==> ParentClosed(Started(k.Without(down), m, wasm, schedulerAcl))
  {
    var reg := Started(k.Without(down), m, wasm, schedulerAcl);
    StartedIsPart(k, down, m, wasm, schedulerAcl);
    PartIsAcyclic(reg, StoredTree(k, m));
    ForestIff(reg);
  }

  lemma OnlyScheduler(schedulerAcl: string)
    ensures Forest(map[SCHEDULER := NativeScheduler(schedulerAcl)])
  {
    assert Rooted(map[SCHEDULER := NativeScheduler(schedulerAcl)], SCHEDULER, 0);
  }

  /** It does not when the node of a parent is out of reach and its child loads,
      whatever the stored nodes describe. */
  lemma LostParentBreaksForest(k: Kubo, down: set<Cid>, m: Manifest, wasm: string -> Wasm, schedulerAcl: string,
                               child: string, parent: string)
    requires child in m.entities && parent in m.entities && child != SCHEDULER && parent != SCHEDULER
    requires LoadNamed(k.Without(down), m, child, wasm(child)).Some?
    requires k.GetEntity(m.entities[child]).Some? && k.GetEntity(m.entities[child]).value.parent == Some(parent)
    requires m.entities[parent] in down
    ensures !Forest(Started(k.Without(down), m, wasm, schedulerAcl))
  {
    var reg := Started(k.Without(down), m, wasm, schedulerAcl);
    assert child in reg && reg[child].parent == Some(parent) && parent !in reg;
    ForestIff(reg);
  }

  // ── Adding and removing one entity ──────────────────────────────────────────

  /** Setting `g` does not matter to a walk that never meets `g`. */
  lemma {:induction false} RootedAside(reg: Registry, f: string, n: nat, g: string, p: Plugin)
    requires Rooted(reg, f, n) && forall k: nat :: Ancestor(reg, f, k) != Some(g)
    ensures Rooted(reg[g := p], f, n)
    decreases n
  {
    assert Ancestor(reg, f, 0) == Some(f);
    if n > 0 {
      var q := reg[f].parent.value;
      forall k: nat ensures Ancestor(reg, q, k) != Some(g) {
        assert Ancestor(reg, f, k + 1) == Ancestor(reg, q, k);
      }
      RootedAside(reg, q, n - 1, g, p);
    }
  }

  /** A walk that meets `g` goes on from there. */
  lemma {:induction false} RootedThrough(reg: Registry, f: string, n: nat, g: string, p: Plugin, d: nat) returns (n': nat)
    requires Rooted(reg, f, n) && Rooted(reg[g := p], g, d)
    ensures Rooted(reg[g := p], f, n')
    decreases n
  {
    if f == g {
      n' := d;
    } else if n == 0 {
      n' := 0;
    } else {
      n' := RootedThrough(reg, reg[f].parent.value, n - 1, g, p, d);
      n' := n' + 1;
    }
  }

  lemma {:induction false} StillAbove(reg: Registry, f: string, k: nat, g: string, p: Plugin) returns (k': nat)
    requires Ancestor(reg, f, k) == Some(g)
    ensures Ancestor(reg[g := p], f, k') == Some(g)
    decreases k
  {
    if f == g {
      k' := 0;
    } else {
      k' := StillAbove(reg, reg[f].parent.value, k - 1, g, p);
      k' := k' + 1;
    }
  }

  lemma {:induction false} RootedAfterRemove(reg: Registry, f: string, n: nat, t: string)
    requires Rooted(reg, f, n) && f != t && !HasChildren(reg, t)
    ensures Rooted(reg - {t}, f, n)
    decreases n
  {
    if n > 0 {
      assert reg[f].parent != Some(t);
      RootedAfterRemove(reg, reg[f].parent.value, n - 1, t);
    }
  }

  ghost predicate AtOrAbove(reg: Registry, f: string, g: string) {
    exists k: nat :: Ancestor(reg, f, k) == Some(g)
  }

  /** This parent is registered, and is neither `g` nor below `g`. */
  ghost predicate Fits(reg: Registry, g: string, parent: Option<string>) {
    match parent
    case None => true
    case Some(q) => q in reg && !AtOrAbove(reg, q, g)
  }

  /** Registering an entity, be it new or in the place of an old one, keeps the
      forest if and only if its parent is registered already and is neither the
      entity itself nor one of its descendants. */
  lemma SetKeepsForestIff(reg: Registry, g: string, p: Plugin)
    requires Forest(reg) && p.fragment == g
    ensures Forest(reg[g := p]) <==> Fits(reg, g, p.parent)
  {
    var reg' := reg[g := p];
    if Fits(reg, g, p.parent) {
      var d: nat := 0;
      if p.parent.Some? {
        var n: nat :| Rooted(reg, p.parent.value, n);
        RootedAside(reg, p.parent.value, n, g, p);
        d := n + 1;
      }
      assert Rooted(reg', g, d);
      forall f | f in reg ensures exists n: nat :: Rooted(reg', f, n) {
        var n: nat :| Rooted(reg, f, n);
        var n' := RootedThrough(reg, f, n, g, p, d);
      }
    } else {
      MisfitBreaksForest(reg, g, p);
    }
  }

  lemma MisfitBreaksForest(reg: Registry, g: string, p: Plugin)
    requires !Fits(reg, g, p.parent)
    ensures !Forest(reg[g := p])
  {
    var reg', q := reg[g := p], p.parent.value;
    if Forest(reg') {
      ParentsAreRegistered(reg', g);
      if q !in reg {
        assert Ancestor(reg', g, 1) == Ancestor(reg', q, 0);
        NoCycles(reg', g, 1);
      } else {
        var k: nat :| Ancestor(reg, q, k) == Some(g);
        var k' := StillAbove(reg, q, k, g, p);
        assert Ancestor(reg', g, k' + 1) == Ancestor(reg', q, k');
        NoCycles(reg', g, k' + 1);
      }
    }
  }

  lemma AbsentIsNobodysAncestor(reg: Registry, q: string, g: string, k: nat)
    requires g !in reg
    ensures Ancestor(reg, q, k) != Some(g)
    decreases k
  {}

  /** So a new fragment needs no more than a registered parent. */
  lemma AddKeepsForestIff(reg: Registry, g: string, p: Plugin)
    requires Forest(reg) && g !in reg && p.fragment == g
    ensures Forest(reg[g := p]) <==> p.parent.None? || p.parent.value in reg
  {
    SetKeepsForestIff(reg, g, p);
    if p.parent.Some? {
      forall k: nat ensures Ancestor(reg, p.parent.value, k) != Some(g) {
        AbsentIsNobodysAncestor(reg, p.parent.value, g, k);
      }
    }
  }

  /** Removing an entity keeps the forest if and only if it has no children. The
      plugin path checks this; the CRUD path does not. */
  lemma RemoveKeepsForestIff(reg: Registry, t: string)
    requires Forest(reg) && t in reg
    ensures Forest(reg - {t}) <==> !HasChildren(reg, t)
  {
    if !HasChildren(reg, t) {
      forall f | f in reg - {t} ensures exists n: nat :: Rooted(reg - {t}, f, n) {
        var n: nat :| Rooted(reg, f, n);
        RootedAfterRemove(reg, f, n, t);
      }
    } else if Forest(reg - {t}) {
      var c :| c in reg && reg[c].parent == Some(t);
      assert reg[t].parent == Some(t) ==> Ancestor(reg, t, 1) == Ancestor(reg, t, 0);
      NoCycles(reg, t, 1);
      assert c != t;
      ParentsAreRegistered(reg - {t}, c);
    }
  }

  // ── One dispatch ────────────────────────────────────────────────────────────

  /** Generated fragments are new when their turn comes. */
  ghost predicate Fresh(s: State, entity: Plugin, creates: seq<Create>) {
    forall i :: 0 <= i < |creates| ==> creates[i].fragment !in CreateEach(s, entity, creates[..i]).registry
  }

  lemma CreateOneRegistry(s: State, entity: Plugin, c: Create)
    ensures var t := CreateOne(s, entity, c);
      t.registry == s.registry
      || (c.fragment in t.registry && t.registry == s.registry[c.fragment := t.registry[c.fragment]]
          && t.registry[c.fragment].fragment == c.fragment && t.registry[c.fragment].parent == Some(entity.fragment))
  {}

  lemma {:induction false} CreatesKeepForest(s: State, entity: Plugin, creates: seq<Create>)
    requires Forest(s.registry) && entity.fragment in s.registry && Fresh(s, entity, creates)
    ensures var t := CreateEach(s, entity, creates);
      && Forest(t.registry)
      && (forall f :: f in s.registry ==> f in t.registry && t.registry[f] == s.registry[f])
      && (forall f :: f in t.registry && f !in s.registry ==> t.registry[f].parent == Some(entity.fragment))
    decreases |creates|
  {
    if creates != [] {
      var n := |creates| - 1;
      var before, c := creates[..n], creates[n];
      forall i | 0 <= i < n ensures before[i].fragment !in CreateEach(s, entity, before[..i]).registry {
        assert before[..i] == creates[..i];
      }
      CreatesKeepForest(s, entity, before);
      var u := CreateEach(s, entity, before);
      var t := CreateOne(u, entity, c);
      CreateOneRegistry(u, entity, c);
      if t.registry != u.registry {
        AddKeepsForestIff(u.registry, c.fragment, t.registry[c.fragment]);
      }
    }
  }

  lemma {:induction false} DeletesKeepForest(s: State, entity: Plugin, deletes: seq<string>)
    requires Forest(s.registry)
    ensures var t := DeleteEach(s, entity, deletes);
      && Forest(t.registry)
      && (forall f :: f in t.registry ==> f in s.registry && t.registry[f] == s.registry[f])
      && (forall f :: f in s.registry && f !in t.registry ==>
            f in deletes && (f == entity.fragment || s.registry[f].parent == Some(entity.fragment)) && !HasChildren(t.registry, f))
    decreases |deletes|
  {
    if deletes != [] {
      var n := |deletes| - 1;
      var u := DeleteEach(s, entity, deletes[..n]);
      DeletesKeepForest(s, entity, deletes[..n]);
      if MayDelete(u.registry, entity, deletes[n]) {
        RemoveKeepsForestIff(u.registry, deletes[n]);
      }
      assert forall f :: f in deletes[..n] ==> f in deletes;
      assert deletes[n] in deletes;
    }
  }

  /** A dispatch with fresh fragments keeps the forest. What it adds are children
      of the caller; what it removes was asked for, is the caller or the caller's
      child, and leaves no child behind. */
  lemma DispatchKeepsForest(s: State, caller: string, creates: seq<Create>, deletes: seq<string>)
    requires Forest(s.registry)
    requires caller in s.registry ==> Fresh(s, s.registry[caller], creates)
    ensures var t := OnDispatch(s, caller, creates, deletes);
      && Forest(t.registry)
      && (forall f :: f in t.registry && f !in s.registry ==> t.registry[f].parent == Some(caller))
      && (forall f :: f in t.registry && f in s.registry ==> t.registry[f] == s.registry[f])
      && (forall f :: f in s.registry && f !in t.registry ==>
            f in deletes && (f == caller || s.registry[f].parent == Some(caller)) && !HasChildren(t.registry, f))
  {
    if caller in s.registry {
      var entity := s.registry[caller];
      CreatesKeepForest(s, entity, creates);
      DeletesKeepForest(CreateEach(s, entity, creates), entity, deletes);
    }
  }

  // ── When a dispatch keeps the forest ────────────────────────────────────────

  /** The creation gets as far as the registry. */
  predicate Registers(s: State, entity: Plugin, c: Create) {
    c.kindProtocol in s.kinds
    && match LoadPlugin(c.fragment, ChildNode(entity, c), s.kinds[c.kindProtocol], c.wasm)
       case Some((_, Running)) => true
       case _ => false
  }

  lemma RegisteredChild(s: State, entity: Plugin, c: Create)
    ensures var t := CreateOne(s, entity, c);
      && t.kinds == s.kinds
      && (!Registers(s, entity, c) ==> t.registry == s.registry)
      && (Registers(s, entity, c) ==>
            && c.fragment in t.registry && t.registry == s.registry[c.fragment := t.registry[c.fragment]]
            && t.registry[c.fragment].fragment == c.fragment && t.registry[c.fragment].parent == Some(entity.fragment))
  {}

  /** Walking up from `e` comes back to `e`. */
  ghost predicate OnCycle(reg: Registry, e: string) { Below(reg, e, e) }

  /** Nothing on the way up from `e` is touched by setting `g`. */
  lemma {:induction false} ChainAside(reg: Registry, e: string, g: string, p: Plugin, k: nat)
    requires !AtOrAbove(reg, e, g) && Ancestor(reg, e, k).Some?
    ensures Ancestor(reg[g := p], e, k) == Ancestor(reg, e, k)
    decreases k
  {
    assert e in reg && Ancestor(reg, e, 0) == Some(e);
    if k > 0 {
      AncestorExists(reg, e, k, k - 1);
      ChainAside(reg, e, g, p, k - 1);
      var y := Ancestor(reg, e, k - 1).value;
      OneStepUp(reg, e, k - 1, y);
      OneStepUp(reg[g := p], e, k - 1, y);
    }
  }

  lemma {:induction false} NothingNewAbove(reg: Registry, e: string, g: string, p: Plugin, k: nat)
    requires ParentClosed(reg) && e in reg && !AtOrAbove(reg, e, g) && Ancestor(reg[g := p], e, k).Some?
    ensures Ancestor(reg, e, k) == Ancestor(reg[g := p], e, k)
    decreases k
  {
    assert Ancestor(reg, e, 0) == Some(e);
    if k > 0 {
      AncestorExists(reg[g := p], e, k, k - 1);
      NothingNewAbove(reg, e, g, p, k - 1);
      var y := Ancestor(reg, e, k - 1).value;
      OneStepUp(reg, e, k - 1, y);
      OneStepUp(reg[g := p], e, k - 1, y);
    }
  }

  /** Putting `g` under `e`, when `g` is at or above `e`, closes a cycle. */
  lemma ChildAboveClosesCycle(reg: Registry, e: string, g: string, p: Plugin)
    requires AtOrAbove(reg, e, g) && e in reg && p.parent == Some(e)
    ensures OnCycle(reg[g := p], e)
  {
    var k: nat :| Ancestor(reg, e, k) == Some(g);
    var k' := StillAbove(reg, e, k, g, p);
    OneStepUp(reg[g := p], e, k', g);
    assert Ancestor(reg[g := p], e, k' + 1) == Some(e);
  }

  /** No creation that gets as far as the registry uses the fragment of the creator
      or of one of its ancestors, as they stand before the dispatch. */
  ghost predicate CreatesFit(s: State, entity: Plugin, creates: seq<Create>) {
    forall i :: 0 <= i < |creates| && Registers(s, entity, creates[i]) ==>
      !AtOrAbove(s.registry, entity.fragment, creates[i].fragment)
  }

  ghost predicate SameAbove(a: Registry, b: Registry, e: string) {
    forall g :: AtOrAbove(a, e, g) <==> AtOrAbove(b, e, g)
  }

  lemma CycleAside(reg: Registry, e: string, g: string, p: Plugin)
    requires OnCycle(reg, e) && !AtOrAbove(reg, e, g)
    ensures OnCycle(reg[g := p], e)
  {
    var k: nat :| k > 0 && Ancestor(reg, e, k) == Some(e);
    ChainAside(reg, e, g, p, k);
  }

  lemma SameAboveAside(reg: Registry, e: string, g: string, p: Plugin)
    requires Forest(reg) && e in reg && !AtOrAbove(reg, e, g)
    ensures SameAbove(reg, reg[g := p], e)
  {
    ForestIff(reg);
    forall x ensures AtOrAbove(reg, e, x) <==> AtOrAbove(reg[g := p], e, x) {
      if AtOrAbove(reg, e, x) {
        var k: nat :| Ancestor(reg, e, k) == Some(x);
        ChainAside(reg, e, g, p, k);
      }
      if AtOrAbove(reg[g := p], e, x) {
        var k: nat :| Ancestor(reg[g := p], e, k) == Some(x);
        NothingNewAbove(reg, e, g, p, k);
      }
    }
  }

  /** As long as all creations fit, the forest stands and nothing changes above the
      creator; after one that does not, the creator sits on a cycle for good. */
  lemma {:induction false} CreatesForestIff(s: State, entity: Plugin, creates: seq<Create>)
    requires Forest(s.registry) && entity.fragment in s.registry
    ensures var t := CreateEach(s, entity, creates);
      && t.kinds == s.kinds && entity.fragment in t.registry
      && (CreatesFit(s, entity, creates) ==> Forest(t.registry) && SameAbove(s.registry, t.registry, entity.fragment))
      && (!CreatesFit(s, entity, creates) ==> OnCycle(t.registry, entity.fragment))
    decreases |creates|
  {
    if creates != [] {
      var n := |creates| - 1;
      var before, c := creates[..n], creates[n];
      CreatesForestIff(s, entity, before);
      CreateForestStep(s, CreateEach(s, entity, before), entity, c, CreatesFit(s, entity, before));
      FitOneMore(s, entity, creates);
    }
  }

  lemma FitOneMore(s: State, entity: Plugin, creates: seq<Create>)
    requires creates != []
    ensures var n := |creates| - 1;
      CreatesFit(s, entity, creates) <==>
        CreatesFit(s, entity, creates[..n])
        && (Registers(s, entity, creates[n]) ==> !AtOrAbove(s.registry, entity.fragment, creates[n].fragment))
  {
    var n := |creates| - 1;
    hide Registers, AtOrAbove;
    assert forall i :: 0 <= i < n ==> creates[..n][i] == creates[i];
  }

  lemma CreateForestStep(s: State, u: State, entity: Plugin, c: Create, fit: bool)
    requires u.kinds == s.kinds && entity.fragment in u.registry
    requires fit ==> Forest(u.registry) && SameAbove(s.registry, u.registry, entity.fragment)
    requires !fit ==> OnCycle(u.registry, entity.fragment)
    ensures var t := CreateOne(u, entity, c);
      var still := fit && (Registers(s, entity, c) ==> !AtOrAbove(s.registry, entity.fragment, c.fragment));
      && t.kinds == s.kinds && entity.fragment in t.registry
      && (still ==> Forest(t.registry) && SameAbove(s.registry, t.registry, entity.fragment))
      && (!still ==> OnCycle(t.registry, entity.fragment))
  {
    var e, g := entity.fragment, c.fragment;
    var t := CreateOne(u, entity, c);
    RegisteredChild(u, entity, c);
    assert Registers(u, entity, c) == Registers(s, entity, c);
    hide CreateOne, Registers, Forest, OnCycle, AtOrAbove;
    if Registers(s, entity, c) {
      var p := t.registry[g];
      if AtOrAbove(u.registry, e, g) {
        ChildAboveClosesCycle(u.registry, e, g, p);
      } else {
        if fit {
          SameAboveAside(u.registry, e, g, p);
          SetKeepsForestIff(u.registry, g, p);
        } else {
          CycleAside(u.registry, e, g, p);
        }
      }
    }
  }

  /** Everything on a cycle has a child, so no deletion takes it apart. */
  lemma {:induction false} DeletesKeepCycle(s: State, entity: Plugin, deletes: seq<string>, e: string)
    requires OnCycle(s.registry, e)
    ensures OnCycle(DeleteEach(s, entity, deletes).registry, e)
    decreases |deletes|
  {
    if deletes != [] {
      var n := |deletes| - 1;
      var u := DeleteEach(s, entity, deletes[..n]);
      DeletesKeepCycle(s, entity, deletes[..n], e);
      if !HasChildren(u.registry, deletes[n]) {
        var k: nat :| k > 0 && Ancestor(u.registry, e, k) == Some(e);
        CycleStays(u.registry, e, k, deletes[n], k);
      }
    }
  }

  lemma {:induction false} CycleStays(reg: Registry, e: string, k: nat, t: string, j: nat)
    requires k > 0 && Ancestor(reg, e, k) == Some(e) && !HasChildren(reg, t) && j <= k
    ensures Ancestor(reg - {t}, e, j) == Ancestor(reg, e, j) && Ancestor(reg, e, j).Some?
    decreases j
  {
    if j == 0 {
      var g := OneBelow(reg, e, k, e);
    } else {
      CycleStays(reg, e, k, t, j - 1);
      var g := Ancestor(reg, e, j - 1).value;
      OneStepUp(reg, e, j - 1, g);
      OneStepUp(reg - {t}, e, j - 1, g);
      AncestorExists(reg, e, k, j);
    }
  }

  /** Who stands on the way just before the k-th ancestor. */
  lemma OneBelow(reg: Registry, f: string, k: nat, g: string) returns (c: string)
    requires k > 0 && Ancestor(reg, f, k) == Some(g)
    ensures c in reg && reg[c].parent == Some(g) && Ancestor(reg, f, k - 1) == Some(c)
    decreases k
  {
    if k == 1 {
      c := f;
      assert Ancestor(reg, reg[f].parent.value, 0) == Some(g);
    } else {
      c := OneBelow(reg, reg[f].parent.value, k - 1, g);
    }
  }

  lemma {:induction false} AncestorExists(reg: Registry, f: string, k: nat, j: nat)
    requires Ancestor(reg, f, k).Some? && j <= k
    ensures Ancestor(reg, f, j).Some?
    decreases j
  {
    if j > 0 {
      AncestorExists(reg, reg[f].parent.value, k - 1, j - 1);
    }
  }

  /** A dispatch keeps the forest if and only if all its creations fit, whatever it
      deletes afterwards. */
  lemma DispatchKeepsForestIff(s: State, caller: string, creates: seq<Create>, deletes: seq<string>)
    requires Forest(s.registry) && caller in s.registry
    ensures Forest(OnDispatch(s, caller, creates, deletes).registry) <==> CreatesFit(s, s.registry[caller], creates)
  {
    var entity := s.registry[caller];
    var created := CreateEach(s, entity, creates);
    CreatesForestIff(s, entity, creates);
    if CreatesFit(s, entity, creates) {
      DeletesKeepForest(created, entity, deletes);
    } else {
      DeletesKeepCycle(created, entity, deletes, caller);
      CycleIsNoForest(OnDispatch(s, caller, creates, deletes).registry, caller);
    }
  }

  lemma CycleIsNoForest(reg: Registry, e: string)
    requires OnCycle(reg, e)
    ensures !Forest(reg)
  {
    var k: nat :| k > 0 && Ancestor(reg, e, k) == Some(e);
    if Forest(reg) {
      OneStepUp(reg, e, k, e);
      NoCycles(reg, e, k);
    }
  }

  // ── CRUD upserts and deletes ────────────────────────────────────────────────

  lemma UpsertRegistry(s: State, e: Event)
    requires e.UpsertEntity?
    ensures Step(s, e).registry == s.registry
         || (s.kubo.GetEntity(e.cid).Some?
             && exists p: Plugin :: p.fragment == e.name && p.parent == s.kubo.GetEntity(e.cid).value.parent
                                    && Step(s, e).registry == s.registry[e.name := p])
  {}

  /** An upsert that registers a plugin keeps the forest if and only if the node's
      parent fits; the code does not look. */
  lemma UpsertKeepsForestIff(s: State, e: Event)
    requires Forest(s.registry) && e.UpsertEntity? && Step(s, e).registry != s.registry
    ensures s.kubo.GetEntity(e.cid).Some?
    ensures Forest(Step(s, e).registry) <==> Fits(s.registry, e.name, s.kubo.GetEntity(e.cid).value.parent)
  {
    UpsertRegistry(s, e);
    var p: Plugin :| p.fragment == e.name && p.parent == s.kubo.GetEntity(e.cid).value.parent
                     && Step(s, e).registry == s.registry[e.name := p];
    SetKeepsForestIff(s.registry, e.name, p);
  }

  /** A CRUD delete does if and only if nothing is left behind below it. */
  lemma DeleteKeepsForestIff(s: State, e: Event)
    requires Forest(s.registry) && e.DeleteEntity?
    ensures Forest(Step(s, e).registry) <==> !HasChildren(s.registry, e.name)
  {
    if e.name in s.registry {
      RemoveKeepsForestIff(s.registry, e.name);
    } else {
      assert s.registry - {e.name} == s.registry;
      if HasChildren(s.registry, e.name) {
        var c :| c in s.registry && s.registry[c].parent == Some(e.name);
        ParentsAreRegistered(s.registry, c);
      }
    }
  }

  // ── Runs ────────────────────────────────────────────────────────────────────

  /** What the code does not check itself: no plugin registers a child under its own
      fragment or that of one of its ancestors, an upserted node that gets a plugin
      fits, and a CRUD delete leaves nothing behind. */
  ghost predicate Tame(s: State, e: Event) {
    match e
    case Dispatch(caller, creates, _) => caller in s.registry ==> CreatesFit(s, s.registry[caller], creates)
    case UpsertEntity(name, cid, _, _, _, _) =>
      Step(s, e).registry == s.registry
      || (s.kubo.GetEntity(cid).Some? && Fits(s.registry, name, s.kubo.GetEntity(cid).value.parent))
    case DeleteEntity(name, _) => !HasChildren(s.registry, name)
    case _ => true
  }

  /** One event keeps the forest if and only if it is tame. */
  lemma StepKeepsForestIff(s: State, e: Event)
    requires Forest(s.registry)
    ensures Forest(Step(s, e).registry) <==> Tame(s, e)
  {
    hide Forest, CreatesFit, Fits;
    match e {
      case Dispatch(caller, creates, deletes) =>
        if caller in s.registry {
          DispatchKeepsForestIff(s, caller, creates, deletes);
        }
      case UpsertEntity(_, _, _, _, _, _) =>
        if Step(s, e).registry != s.registry {
          UpsertKeepsForestIff(s, e);
        }
      case DeleteEntity(_, _) => DeleteKeepsForestIff(s, e);
      case _ => OtherEventsKeepRegistry(s, e);
    }
  }

  lemma OtherEventsKeepRegistry(s: State, e: Event)
    requires !e.Dispatch? && !e.UpsertEntity? && !e.DeleteEntity?
    ensures Step(s, e).registry == s.registry
  {
    EventFrame(s, e);
    hide Step;
  }

  ghost predicate ForestAt(s: State, es: seq<Event>, n: int)
    requires 0 <= n <= |es|
  {
    Forest(Run(s, es[..n]).registry)
  }

  ghost predicate TameAt(s: State, es: seq<Event>, n: int)
    requires 0 <= n < |es|
  {
    Tame(Run(s, es[..n]), es[n])
  }

  ghost predicate Forests(s: State, es: seq<Event>) {
    forall n :: 0 <= n <= |es| ==> ForestAt(s, es, n)
  }

  ghost predicate TameRun(s: State, es: seq<Event>) {
    forall n :: 0 <= n < |es| ==> TameAt(s, es, n)
  }

  /** From a forest, walking up ends throughout a run if and only if every event of
      the run is tame where it happens. */
  lemma {:induction false} RunKeepsForestIff(s: State, es: seq<Event>)
    requires Forest(s.registry)
    ensures Forests(s, es) <==> TameRun(s, es)
    decreases |es|
  {
    if es == [] {
      assert es[..0] == [];
    } else {
      var last := |es| - 1;
      RunKeepsForestIff(s, es[..last]);
      OneMorePrefix(s, es);
      hide Forests, TameRun, Tame, Forest;
      if ForestAt(s, es, last) {
        StepKeepsForestIff(Run(s, es[..last]), es[last]);
      }
    }
  }

  lemma OneMorePrefix(s: State, es: seq<Event>)
    requires es != []
    ensures var last := |es| - 1;
      && (Forests(s, es) <==> Forests(s, es[..last]) && Forest(Step(Run(s, es[..last]), es[last]).registry))
      && (TameRun(s, es) <==> TameRun(s, es[..last]) && TameAt(s, es, last))
      && (Forests(s, es[..last]) ==> ForestAt(s, es, last))
  {
    var last := |es| - 1;
    LastPrefix(s, es);
    forall n | 0 <= n <= last
      ensures ForestAt(s, es[..last], n) <==> ForestAt(s, es, n)
      ensures n < last ==> (TameAt(s, es[..last], n) <==> TameAt(s, es, n))
    {
      SamePrefix(s, es, last, n);
    }
    hide ForestAt, TameAt, Step, Run;
  }

  lemma LastPrefix(s: State, es: seq<Event>)
    requires es != []
    ensures ForestAt(s, es, |es|) <==> Forest(Step(Run(s, es[..|es| - 1]), es[|es| - 1]).registry)
  {
    hide Forest, Step;
    assert es[..|es|] == es;
  }

  lemma SamePrefix(s: State, es: seq<Event>, last: int, n: int)
    requires 0 <= n <= last < |es|
    ensures ForestAt(s, es[..last], n) <==> ForestAt(s, es, n)
    ensures n < last ==> (TameAt(s, es[..last], n) <==> TameAt(s, es, n))
  {
    hide Forest, Tame, Run;
    assert es[..last][..n] == es[..n];
  }
}
