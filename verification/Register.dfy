/** The register plugin: a two-way index between keys and values
    (plugins/register/src/lib.rs). */
module Register {
  import opened Text

  datatype State = State(fwd: map<string, string>, rev: map<string, string>)

  datatype Arg = Text(text: string) | Other
  datatype Call = Call(from: string, verb: string, args: seq<Arg>)
  datatype Identity = Identity(selfDid: string, parent: Option<string>)

  datatype Reply =
    | Unit | Count(n: nat) | Texts(texts: seq<string>) | Found(text: string) | Flag(value: bool)
    | NotFound | BadArguments | PermissionDenied | UnknownVerb

  predicate IsWriter(id: Identity, from: string) {
    id.selfDid == from || id.parent == Some(from)
  }

  function ArgText(args: seq<Arg>, i: nat): Option<string> {
    if i < |args| && args[i].Text? then Some(args[i].text) else None
  }

  /** The write a call asks for, once it is permitted and well formed. */
  datatype Write = Set(key: string, val: string) | Delete(key: string) | DeleteValue(val: string) | Clear

  function WriteOf(id: Identity, call: Call): Option<Write> {
    if !IsWriter(id, call.from) then None
    else
      match (call.verb, ArgText(call.args, 0), ArgText(call.args, 1))
      case (":set", Some(k), Some(v)) => Some(Set(k, v))
      case (":delete", Some(k), _) => Some(Delete(k))
      case (":delete_value", Some(v), _) => Some(DeleteValue(v))
      case (":clear", _, _) => Some(Clear)
      case _ => None
  }

  // ── What the index means ────────────────────────────────────────────────────

  type Relation = set<(string, string)>

  ghost predicate Inverse(s: State) {
    forall k, v :: (k in s.fwd && s.fwd[k] == v) <==> (v in s.rev && s.rev[v] == k)
  }

  ghost function Pairs(s: State): Relation {
    set k | k in s.fwd :: (k, s.fwd[k])
  }

  /** A write on the set of pairs: `set` first drops every pair that mentions the
      key or the value. */
  ghost function Written(r: Relation, w: Write): Relation {
    match w
    case Set(k, v) => (set p | p in r && p.0 != k && p.1 != v) + {(k, v)}
    case Delete(k) => set p | p in r && p.0 != k
    case DeleteValue(v) => set p | p in r && p.1 != v
    case Clear => {}
  }

  // ── What the code does to the two maps ──────────────────────────────────────

  function Apply(s: State, w: Write): State {
    match w
    case Set(k, v) =>
      var rev := if k in s.fwd then s.rev - {s.fwd[k]} else s.rev;
      var fwd := if v in rev then s.fwd - {rev[v]} else s.fwd;
      State(fwd[k := v], rev[v := k])
    case Delete(k) =>
      if k in s.fwd then State(s.fwd - {k}, s.rev - {s.fwd[k]}) else s
    case DeleteValue(v) =>
      if v in s.rev then State(s.fwd - {s.rev[v]}, s.rev - {v}) else s
    case Clear => State(map[], map[])
  }

  lemma InPairs(s: State, p: (string, string))
    ensures p in Pairs(s) <==> p.0 in s.fwd && s.fwd[p.0] == p.1
  {}

  /** The two maps are inverse and hold exactly these pairs. */
  ghost predicate Index(s: State, r: Relation) {
    && (forall k, v :: (k, v) in r <==> k in s.fwd && s.fwd[k] == v)
    && (forall k, v :: (k, v) in r <==> v in s.rev && s.rev[v] == k)
  }

  lemma InverseIsIndex(s: State, r: Relation)
    ensures Index(s, r) <==> Inverse(s) && r == Pairs(s)
  {
    if Inverse(s) && r == Pairs(s) {
      forall k, v ensures (k, v) in r <==> k in s.fwd && s.fwd[k] == v { InPairs(s, (k, v)); }
    }
    if Index(s, r) {
      forall k, v ensures (k in s.fwd && s.fwd[k] == v) <==> (v in s.rev && s.rev[v] == k) {
        assert (k, v) in r <==> k in s.fwd && s.fwd[k] == v;
      }
      forall p ensures p in r <==> p in Pairs(s) {
        InPairs(s, p);
        assert p == (p.0, p.1);
      }
    }
  }

  lemma SetRefines(s: State, r: Relation, key: string, val: string)
    requires Index(s, r)
    ensures Index(Apply(s, Set(key, val)), Written(r, Set(key, val)))
  {
    var t, w := Apply(s, Set(key, val)), Written(r, Set(key, val));
    assert key in s.fwd ==> (key, s.fwd[key]) in r;
    assert val in s.rev ==> (s.rev[val], val) in r;
    forall k, v
      ensures (k, v) in w <==> k in t.fwd && t.fwd[k] == v
      ensures (k, v) in w <==> v in t.rev && t.rev[v] == k
    {
      assert (k, v) in w <==> ((k, v) in r && k != key && v != val) || (k == key && v == val);
    }
  }

  lemma DeleteRefines(s: State, r: Relation, key: string)
    requires Index(s, r)
    ensures Index(Apply(s, Delete(key)), Written(r, Delete(key)))
  {
    assert key in s.fwd ==> (key, s.fwd[key]) in r;
  }

  lemma DeleteValueRefines(s: State, r: Relation, val: string)
    requires Index(s, r)
    ensures Index(Apply(s, DeleteValue(val)), Written(r, DeleteValue(val)))
  {
    assert val in s.rev ==> (s.rev[val], val) in r;
  }

  /** On an inverse index every write is the write on pairs, and leaves the two
      maps inverse. */
  lemma ApplyRefines(s: State, w: Write)
    requires Inverse(s)
    ensures Inverse(Apply(s, w))
    ensures Pairs(Apply(s, w)) == Written(Pairs(s), w)
  {
    var r := Pairs(s);
    InverseIsIndex(s, r);
    hide Index, Inverse, Pairs, Written, Apply;
    match w {
      case Set(key, val) => SetRefines(s, r, key, val);
      case Delete(key) => DeleteRefines(s, r, key);
      case DeleteValue(val) => DeleteValueRefines(s, r, val);
      case Clear => ClearRefines(s, r);
    }
    InverseIsIndex(Apply(s, w), Written(r, w));
  }

  lemma ClearRefines(s: State, r: Relation)
    ensures Index(Apply(s, Clear), Written(r, Clear))
  {}

  lemma {:induction false} MutualInversesHaveSameSize(fwd: map<string, string>, rev: map<string, string>)
    requires forall k :: k in fwd ==> fwd[k] in rev && rev[fwd[k]] == k
    requires forall v :: v in rev ==> rev[v] in fwd && fwd[rev[v]] == v
    ensures |fwd| == |rev|
    decreases |fwd|
  {
    if fwd == map[] {
      assert rev.Keys == {};
    } else {
      var k :| k in fwd;
      var fwd', rev' := fwd - {k}, rev - {fwd[k]};
      assert fwd'.Keys == fwd.Keys - {k} && rev'.Keys == rev.Keys - {fwd[k]};
      MutualInversesHaveSameSize(fwd', rev');
    }
  }

  lemma SameSize(s: State)
    requires Inverse(s)
    ensures |s.fwd| == |s.rev|
  {
    forall k | k in s.fwd ensures s.fwd[k] in s.rev && s.rev[s.fwd[k]] == k {}
    forall v | v in s.rev ensures s.rev[v] in s.fwd && s.fwd[s.rev[v]] == v {}
    MutualInversesHaveSameSize(s.fwd, s.rev);
  }

  // ── Runs ────────────────────────────────────────────────────────────────────

  function Step(id: Identity, s: State, call: Call): State {
    match WriteOf(id, call)
    case Some(w) => Apply(s, w)
    case None => s
  }

  function Run(id: Identity, s: State, calls: seq<Call>): State
    decreases |calls|
  {
    if calls == [] then s else Run(id, Step(id, s, calls[0]), calls[1..])
  }

  ghost function RunPairs(id: Identity, r: Relation, calls: seq<Call>): Relation
    decreases |calls|
  {
    if calls == [] then r else
      RunPairs(id, match WriteOf(id, calls[0]) case Some(w) => Written(r, w) case None => r, calls[1..])
  }

  /** Any sequence of calls, by anyone, keeps the index two-way. */
  lemma {:induction false} RunStaysInverse(id: Identity, s: State, calls: seq<Call>)
    requires Inverse(s)
    ensures Inverse(Run(id, s, calls))
    ensures Pairs(Run(id, s, calls)) == RunPairs(id, Pairs(s), calls)
    ensures |Run(id, s, calls).fwd| == |Run(id, s, calls).rev|
    decreases |calls|
  {
    if calls == [] {
      SameSize(s);
    } else {
      match WriteOf(id, calls[0]) {
        case Some(w) => ApplyRefines(s, w);
        case None =>
      }
      RunStaysInverse(id, Step(id, s, calls[0]), calls[1..]);
    }
  }

  // ── What each verb does, and for whom ───────────────────────────────────────

  /** The plugin itself and its parent may write. */
  lemma WritersAre(id: Identity, from: string)
    ensures IsWriter(id, from) <==> from == id.selfDid || (id.parent.Some? && from == id.parent.value)
  {}

  /** Each write verb, as it acts on the pairs of an inverse index; with too few or
      other arguments, or from anybody else, no verb changes anything. */
  lemma VerbsWrite(id: Identity, s: State, from: string, k: string, v: string, more: seq<Arg>)
    requires Inverse(s) && (from == id.selfDid || id.parent == Some(from))
    ensures Pairs(Step(id, s, Call(from, ":set", [Text(k), Text(v)] + more)))
         == (set p | p in Pairs(s) && p.0 != k && p.1 != v) + {(k, v)}
    ensures Pairs(Step(id, s, Call(from, ":delete", [Text(k)] + more))) == set p | p in Pairs(s) && p.0 != k
    ensures Pairs(Step(id, s, Call(from, ":delete_value", [Text(v)] + more))) == set p | p in Pairs(s) && p.1 != v
    ensures Pairs(Step(id, s, Call(from, ":clear", more))) == {}
  {
    WritersAre(id, from);
    ApplyRefines(s, Set(k, v));
    ApplyRefines(s, Delete(k));
    ApplyRefines(s, DeleteValue(v));
    ApplyRefines(s, Clear);
    assert ([Text(k), Text(v)] + more)[0] == Text(k) && ([Text(k), Text(v)] + more)[1] == Text(v);
    assert ([Text(k)] + more)[0] == Text(k) && ([Text(v)] + more)[0] == Text(v);
    hide Apply, Pairs, Inverse;
  }

  lemma NothingElseWrites(id: Identity, s: State, call: Call)
    ensures call.from != id.selfDid && id.parent != Some(call.from) ==> Step(id, s, call) == s
    ensures call.verb != ":set" && call.verb != ":delete" && call.verb != ":delete_value" && call.verb != ":clear" ==>
              Step(id, s, call) == s
    ensures call.verb == ":set" && (|call.args| < 2 || call.args[0] == Other || call.args[1] == Other) ==> Step(id, s, call) == s
    ensures (call.verb == ":delete" || call.verb == ":delete_value") && (call.args == [] || call.args[0] == Other) ==>
              Step(id, s, call) == s
  {
    WritersAre(id, call.from);
    hide Apply;
  }

  /** On an inverse index the answers are about its pairs. */
  lemma AnswersByKey(s: State, from: string, x: string, more: seq<Arg>, reply: Reply)
    requires Inverse(s)
    ensures Answers(s, Call(from, ":get", [Text(x)] + more), reply) ==>
              if reply.Found? then (x, reply.text) in Pairs(s) else reply == NotFound && forall v :: (x, v) !in Pairs(s)
    ensures Answers(s, Call(from, ":has", [Text(x)] + more), reply) ==>
              reply.Flag? && (reply.value <==> exists v :: (x, v) in Pairs(s))
  {
    assert ([Text(x)] + more)[0] == Text(x);
    InverseIsIndex(s, Pairs(s));
    if x in s.fwd { assert (x, s.fwd[x]) in Pairs(s); }
    hide Inverse, Pairs;
  }

  lemma AnswersByValue(s: State, from: string, x: string, more: seq<Arg>, reply: Reply)
    requires Inverse(s)
    ensures Answers(s, Call(from, ":reverse", [Text(x)] + more), reply) ==>
              if reply.Found? then (reply.text, x) in Pairs(s) else reply == NotFound && forall k :: (k, x) !in Pairs(s)
    ensures Answers(s, Call(from, ":has_value", [Text(x)] + more), reply) ==>
              reply.Flag? && (reply.value <==> exists k :: (k, x) in Pairs(s))
  {
    assert ([Text(x)] + more)[0] == Text(x);
    InverseIsIndex(s, Pairs(s));
    if x in s.rev { assert (s.rev[x], x) in Pairs(s); }
    hide Inverse, Pairs;
  }

  // ── Snapshots that are not inverse ──────────────────────────────────────────

  /** The keys of the forward map that a write replaces or drops. */
  function TouchedKeys(s: State, w: Write): set<string> {
    match w
    case Set(k, v) =>
      var rev := if k in s.fwd then s.rev - {s.fwd[k]} else s.rev;
      {k} + if v in rev then {rev[v]} else {}
    case Delete(k) => {k} * s.fwd.Keys
    case DeleteValue(v) => if v in s.rev then {s.rev[v]} else {}
    case Clear => s.fwd.Keys
  }

  /** The same for the values of the reverse map. */
  function TouchedValues(s: State, w: Write): set<string> {
    match w
    case Set(k, v) => {v} + if k in s.fwd then {s.fwd[k]} else {}
    case Delete(k) => if k in s.fwd then {s.fwd[k]} else {}
    case DeleteValue(v) => {v} * s.rev.Keys
    case Clear => s.rev.Keys
  }

  /** What a write leaves alone. */
  function Rest(s: State, w: Write): State {
    State(s.fwd - TouchedKeys(s, w), s.rev - TouchedValues(s, w))
  }

  lemma WriteOnRest(s: State, w: Write)
    ensures Apply(s, w) == if w.Set? then State(Rest(s, w).fwd[w.key := w.val], Rest(s, w).rev[w.val := w.key]) else Rest(s, w)
  {
    if w.Set? {
      var t, r := Apply(s, w), Rest(s, w);
      assert t.fwd == r.fwd[w.key := w.val];
      assert t.rev == r.rev[w.val := w.key];
    }
  }

  lemma PairOnRestIff(r: State, k: string, v: string)
    requires k !in r.fwd && v !in r.rev
    ensures Inverse(State(r.fwd[k := v], r.rev[v := k])) <==> Inverse(r)
  {
    var t := State(r.fwd[k := v], r.rev[v := k]);
    if Inverse(r) {
      forall a, b ensures (a in t.fwd && t.fwd[a] == b) <==> (b in t.rev && t.rev[b] == a) {
        assert (a in r.fwd && r.fwd[a] == b) <==> (b in r.rev && r.rev[b] == a);
      }
    }
    if Inverse(t) {
      forall a, b ensures (a in r.fwd && r.fwd[a] == b) <==> (b in r.rev && r.rev[b] == a) {
        assert (a in t.fwd && t.fwd[a] == b) <==> (b in t.rev && t.rev[b] == a);
      }
    }
  }

  /** A loaded snapshot is not checked. A write leaves an inverse index behind if and
      only if what it does not touch is inverse: it repairs exactly the damage that
      lies on its way. */
  lemma WriteRepairsIff(s: State, w: Write)
    ensures Inverse(Apply(s, w)) <==> Inverse(Rest(s, w))
  {
    WriteOnRest(s, w);
    if w.Set? {
      PairOnRestIff(Rest(s, w), w.key, w.val);
    }
  }

  /** Clearing repairs everything. */
  lemma ClearRepairs(s: State)
    ensures Inverse(Apply(s, Clear))
  {}

  /** Of one pair that is in the forward map only, setting its key repairs it, and
      setting any unrelated pair does not. */
  lemma DamagedPair(k: string, x: string, key: string, val: string)
    ensures Inverse(Apply(State(map[k := x], map[]), Set(key, val))) <==> key == k
  {
    var s := State(map[k := x], map[]);
    var r := Rest(s, Set(key, val));
    WriteRepairsIff(s, Set(key, val));
    assert r.rev == map[];
    if key != k {
      assert k in r.fwd && r.fwd[k] == x && x !in r.rev;
      assert !Inverse(r);
    } else {
      assert r.fwd == map[];
    }
  }

  /** The values of a sorted map in the order of its keys. */
  ghost predicate ListsValues(texts: seq<string>, m: map<string, string>) {
    var keys := SortedKeys(m.Keys);
    |texts| == |keys| && forall i :: 0 <= i < |keys| ==> texts[i] == m[keys[i]]
  }

  predicate IsWriteVerb(verb: string) {
    verb == ":set" || verb == ":delete" || verb == ":delete_value" || verb == ":clear"
  }

  /** What every other verb is answered from this index. */
  ghost predicate Answers(s: State, call: Call, reply: Reply) {
    var arg := ArgText(call.args, 0);
    match call.verb
    case ":count" => reply == Count(|s.fwd|)
    case ":keys" => reply == Texts(SortedKeys(s.fwd.Keys))
    case ":values" => reply.Texts? && ListsValues(reply.texts, s.fwd)
    case ":get" => reply == if arg.None? then BadArguments else if arg.value in s.fwd then Found(s.fwd[arg.value]) else NotFound
    case ":reverse" => reply == if arg.None? then BadArguments else if arg.value in s.rev then Found(s.rev[arg.value]) else NotFound
    case ":has" => reply == if arg.None? then BadArguments else Flag(arg.value in s.fwd)
    case ":has_value" => reply == if arg.None? then BadArguments else Flag(arg.value in s.rev)
    case _ => reply == UnknownVerb
  }

  // ── The plugin ──────────────────────────────────────────────────────────────

  class Register {
    const id: Identity
    var fwd: map<string, string>
    var rev: map<string, string>
    /** The snapshot last handed to the runtime. */
    var saved: Option<State>

    ghost function Value(): State reads this { State(fwd, rev) }

    /** Start empty, or from whatever snapshot the runtime hands over. */
    constructor (id: Identity, snapshot: Option<State>)
      ensures this.id == id && saved == None
      ensures Value() == match snapshot case Some(s) => s case None => State(map[], map[])
    {
      this.id := id;
      fwd, rev, saved := map[], map[], None;
      new;
      if snapshot.Some? {
        fwd, rev := snapshot.value.fwd, snapshot.value.rev;
      }
    }

    method Persist()
      modifies this`saved
      ensures saved == Some(Value())
    {
      saved := Some(State(fwd, rev));
    }

    /** Drop the key's old reverse entry and the value's old forward entry first. */
    method SetPair(key: string, val: string)
      modifies this`fwd, this`rev
      ensures Value() == Apply(old(Value()), Set(key, val))
    {
      if key in fwd {
        rev := rev - {fwd[key]};
      }
      if val in rev {
        fwd := fwd - {rev[val]};
      }
      fwd := fwd[key := val];
      rev := rev[val := key];
    }

    method DeleteKey(key: string)
      modifies this`fwd, this`rev
      ensures Value() == Apply(old(Value()), Delete(key))
    {
      if key in fwd {
        var val := fwd[key];
        fwd := fwd - {key};
        rev := rev - {val};
      }
    }

    method DeleteByValue(val: string)
      modifies this`fwd, this`rev
      ensures Value() == Apply(old(Value()), DeleteValue(val))
    {
      if val in rev {
        var key := rev[val];
        rev := rev - {val};
        fwd := fwd - {key};
      }
    }

    /** The verbs that anyone may use, and those that do not exist. */
    method Answer(call: Call) returns (reply: Reply)
      requires !IsWriteVerb(call.verb)
      ensures Answers(Value(), call, reply)
    {
      var first := ArgText(call.args, 0);
      match call.verb {
        case ":count" =>
          reply := Count(|fwd|);
        case ":keys" =>
          reply := Texts(SortedKeys(fwd.Keys));
        case ":values" =>
          var keys, f := SortedKeys(fwd.Keys), fwd;
          assert forall i :: 0 <= i < |keys| ==> keys[i] in keys;
          reply := Texts(seq(|keys|, i requires 0 <= i < |keys| => f[keys[i]]));
        case ":get" =>
          if first.None? { return BadArguments; }
          reply := if first.value in fwd then Found(fwd[first.value]) else NotFound;
        case ":reverse" =>
          if first.None? { return BadArguments; }
          reply := if first.value in rev then Found(rev[first.value]) else NotFound;
        case ":has" =>
          reply := if first.None? then BadArguments else Flag(first.value in fwd);
        case ":has_value" =>
          reply := if first.None? then BadArguments else Flag(first.value in rev);
        case _ =>
          reply := UnknownVerb;
      }
    }

    method HandleCall(call: Call) returns (reply: Reply)
      modifies this
      ensures Value() == Step(id, old(Value()), call)
      ensures saved == if WriteOf(id, call).Some? then Some(Value()) else old(saved)
      ensures IsWriteVerb(call.verb) ==>
                reply == if !IsWriter(id, call.from) then PermissionDenied
                         else if WriteOf(id, call).None? then BadArguments else Unit
      ensures !IsWriteVerb(call.verb) ==> Answers(Value(), call, reply)
    {
      var first, second := ArgText(call.args, 0), ArgText(call.args, 1);
      match call.verb {
        case ":set" =>
          if !IsWriter(id, call.from) { return PermissionDenied; }
          if first.None? || second.None? { return BadArguments; }
          SetPair(first.value, second.value);
          Persist();
          reply := Unit;
        case ":delete" =>
          if !IsWriter(id, call.from) { return PermissionDenied; }
          if first.None? { return BadArguments; }
          DeleteKey(first.value);
          Persist();
          reply := Unit;
        case ":delete_value" =>
          if !IsWriter(id, call.from) { return PermissionDenied; }
          if first.None? { return BadArguments; }
          DeleteByValue(first.value);
          Persist();
          reply := Unit;
        case ":clear" =>
          if !IsWriter(id, call.from) { return PermissionDenied; }
          fwd, rev := map[], map[];
          Persist();
          reply := Unit;
        case _ =>
          reply := Answer(call);
      }
    }
  }
}
