/** How a structured-data request is addressed and decoded
    (src/crud/helpers.rs, src/crud/mod.rs). */
module CrudPath {
  import opened Text

  /** Cut at the first separator, which is dropped; without one, all of it is head. */
  function SplitOnce(s: string, sep: char): (string, string) {
    if s == [] then ("", "")
    else if s[0] == sep then ("", s[1..])
    else var (head, rest) := SplitOnce(s[1..], sep); ([s[0]] + head, rest)
  }

  function NonEmpty(parts: seq<string>): (r: seq<string>)
    ensures forall i :: 0 <= i < |r| ==> r[i] in parts && r[i] != ""
  {
    if parts == [] then []
    else (if parts[0] == "" then [] else [parts[0]]) + NonEmpty(parts[1..])
  }

  /** `:ns.seg1.seg2` to the namespace and its segments; empty segments vanish. */
  function ParsePath(path: string): Option<(string, seq<string>)> {
    if path == [] || path[0] != ':' then None
    else
      var (ns, rest) := SplitOnce(path[1..], '.');
      if ns == "" then None else Some((ns, NonEmpty(Split(rest, '.'))))
  }

  function PrintPath(ns: string, segs: seq<string>): string {
    ":" + Join([ns] + segs, '.')
  }

  predicate Plain(part: string) { part != "" && '.' !in part }

  predicate AllPlain(parts: seq<string>) { forall i :: 0 <= i < |parts| ==> Plain(parts[i]) }

  lemma {:induction false} NonEmptyKeepsPlain(parts: seq<string>)
    requires AllPlain(parts)
    ensures NonEmpty(parts) == parts
  {
    if parts != [] {
      NonEmptyKeepsPlain(parts[1..]);
      assert parts == [parts[0]] + parts[1..];
    }
  }

  lemma {:induction false} SplitOnceAt(head: string, sep: char, rest: string)
    requires sep !in head
    ensures SplitOnce(head + [sep] + rest, sep) == (head, rest)
    ensures SplitOnce(head, sep) == (head, "")
  {
    if head == [] {
      assert ([sep] + rest)[1..] == rest;
    } else {
      assert head[0] in head && forall c :: c in head[1..] ==> c in head;
      assert (head + [sep] + rest)[1..] == head[1..] + [sep] + rest;
      assert [head[0]] + head[1..] == head;
      SplitOnceAt(head[1..], sep, rest);
    }
  }

  lemma {:induction false} SplitOnceHeadIsFree(s: string, sep: char)
    ensures sep !in SplitOnce(s, sep).0
  {
    if s != [] && s[0] != sep {
      SplitOnceHeadIsFree(s[1..], sep);
    }
  }

  /** Whatever a path parses to has non-empty parts without dots. */
  lemma ParsedPartsArePlain(path: string)
    requires ParsePath(path).Some?
    ensures Plain(ParsePath(path).value.0) && AllPlain(ParsePath(path).value.1)
  {
    SplitOnceHeadIsFree(path[1..], '.');
    var rest := SplitOnce(path[1..], '.').1;
    SplitFree(rest, '.');
  }

  /** Printing and parsing are inverse on exactly the non-empty, dot-free parts. */
  lemma PrintedPathParsesBack(ns: string, segs: seq<string>)
    ensures ParsePath(PrintPath(ns, segs)) == Some((ns, segs)) <==> Plain(ns) && AllPlain(segs)
  {
    var path := PrintPath(ns, segs);
    assert path[1..] == Join([ns] + segs, '.');
    if Plain(ns) && AllPlain(segs) {
      if segs == [] {
        assert [ns] + segs == [ns];
        SplitOnceAt(ns, '.', "");
        assert Split("", '.') == [""];
        assert NonEmpty([""]) == [];
      } else {
        assert ([ns] + segs)[1..] == segs;
        SplitOnceAt(ns, '.', Join(segs, '.'));
        SplitJoin(segs, '.');
        NonEmptyKeepsPlain(segs);
      }
    }
    if ParsePath(path) == Some((ns, segs)) {
      ParsedPartsArePlain(path);
    }
  }

  /** Re-printing an accepted path parses to the same address. */
  lemma ReprintingIsStable(path: string)
    requires ParsePath(path).Some?
    ensures ParsePath(PrintPath(ParsePath(path).value.0, ParsePath(path).value.1)) == ParsePath(path)
  {
    ParsedPartsArePlain(path);
    PrintedPathParsesBack(ParsePath(path).value.0, ParsePath(path).value.1);
  }

  // ── Payloads ────────────────────────────────────────────────────────────────

  datatype Cbor = TextItem(text: string) | ArrayItem(items: seq<Cbor>) | OtherItem(encoding: seq<bv8>)

  datatype CrudOp = Get(path: string) | Set(path: string, value: Cbor) | Delete(path: string)

  function Decode(payload: Cbor): Option<CrudOp> {
    if !payload.ArrayItem? || |payload.items| != 2 then None
    else
      match (payload.items[0], payload.items[1])
      case (TextItem(verb), second) =>
        if verb == ":get" then (if second.TextItem? then Some(Get(second.text)) else None)
        else if verb == ":delete" then (if second.TextItem? then Some(Delete(second.text)) else None)
        else Some(Set(verb, second))
      case _ => None
  }

  function Encode(op: CrudOp): Cbor {
    match op
    case Get(path) => ArrayItem([TextItem(":get"), TextItem(path)])
    case Delete(path) => ArrayItem([TextItem(":delete"), TextItem(path)])
    case Set(path, value) => ArrayItem([TextItem(path), value])
  }

  /** A request survives the wire unless it writes to a path spelled like a verb. */
  lemma EncodedOpDecodesBack(op: CrudOp)
    ensures Decode(Encode(op)) == Some(op) <==> !(op.Set? && (op.path == ":get" || op.path == ":delete"))
  {}

  /** The handler's arguments for a request: path, tail marker, CBOR arguments. */
  function Lower(op: CrudOp): (string, Option<string>, seq<Cbor>) {
    match op
    case Get(path) => (path, None, [])
    case Set(path, value) => (path, Some(""), [value])
    case Delete(path) => (path, Some(""), [])
  }

  /** The lowering itself mixes nothing up. */
  lemma LoweringIsInjective(a: CrudOp, b: CrudOp)
    ensures Lower(a) == Lower(b) <==> a == b
  {
    if a.Set? && b.Set? {
      assert [a.value][0] == a.value && [b.value][0] == b.value;
    }
  }

  // ── From the payload to the handler ─────────────────────────────────────────

  const NAMESPACES := {"entities", "kinds", "config", "acl", "acls"}

  /** What a handler is called with. The one for the root ACL is not given the
      segments after the namespace. */
  datatype HandlerCall = HandlerCall(ns: string, rest: seq<string>, tail: Option<string>, args: seq<Cbor>)

  function Segs(ns: string, segs: seq<string>): seq<string> {
    if ns == "acl" then [] else segs
  }

  function Dispatch(payload: Cbor): Option<HandlerCall> {
    match Decode(payload)
    case None => None
    case Some(op) =>
      var (path, tail, args) := Lower(op);
      match ParsePath(path)
      case None => None
      case Some((ns, segs)) => if ns in NAMESPACES then Some(HandlerCall(ns, Segs(ns, segs), tail, args)) else None
  }

  /** The three kinds of payload, as they reach a handler: every namespace but that
      of the root ACL gets all the segments of the address. */
  lemma PayloadsReachHandlers(path: string, ns: string, segs: seq<string>, value: Cbor)
    requires ParsePath(path) == Some((ns, segs))
    requires ns == "entities" || ns == "kinds" || ns == "config" || ns == "acl" || ns == "acls"
    ensures var rest := if ns == "acl" then [] else segs;
      && Dispatch(ArrayItem([TextItem(":get"), TextItem(path)])) == Some(HandlerCall(ns, rest, None, []))
      && Dispatch(ArrayItem([TextItem(":delete"), TextItem(path)])) == Some(HandlerCall(ns, rest, Some(""), []))
      && Dispatch(ArrayItem([TextItem(path), value])) == Some(HandlerCall(ns, rest, Some(""), [value]))
  {
    NotAVerb(path);
    hide ParsePath;
  }

  /** Nothing else does: a payload that is no such pair, a path that is none, or an
      unknown namespace. */
  lemma OtherPayloadsAreRefused(payload: Cbor)
    requires Dispatch(payload).Some?
    ensures payload.ArrayItem? && |payload.items| == 2 && payload.items[0].TextItem?
    ensures payload.items[0].text == ":get" || payload.items[0].text == ":delete" ==> payload.items[1].TextItem?
    ensures var verb := payload.items[0].text;
      var path := if verb == ":get" || verb == ":delete" then payload.items[1].text else verb;
      && ParsePath(path).Some?
      && var ns := ParsePath(path).value.0;
      ns == "entities" || ns == "kinds" || ns == "config" || ns == "acl" || ns == "acls"
  {
    hide ParsePath;
  }

  /** A path is an address if it begins with a colon and a namespace follows. */
  lemma AddressIff(path: string)
    ensures ParsePath(path).Some? <==> |path| >= 2 && path[0] == ':' && path[1] != '.'
  {
    if |path| >= 2 && path[0] == ':' {
      assert path[1..][0] == path[1];
    }
  }

  /** The namespace ends at the first dot, and of what follows every non-empty part
      between dots is a segment. */
  lemma SegmentsOf(ns: string, rest: string)
    requires ns != "" && '.' !in ns
    ensures ParsePath(":" + ns + ['.'] + rest).Some?
    ensures var (n, segs) := ParsePath(":" + ns + ['.'] + rest).value;
      n == ns && segs == NonEmpty(Split(rest, '.'))
  {
    Parses(ns, rest);
  }

  lemma {:induction false} NonEmptyConcat(a: seq<string>, b: seq<string>)
    ensures NonEmpty(a + b) == NonEmpty(a) + NonEmpty(b)
    ensures NonEmpty([""]) == []
    ensures forall part :: part != "" ==> NonEmpty([part]) == [part]
    decreases |a|
  {
    assert forall part: string :: [part][1..] == [];
    if a == [] {
      assert a + b == b;
    } else {
      assert (a + b)[1..] == a[1..] + b;
      NonEmptyConcat(a[1..], b);
    }
  }

  /** The one spelling of an address that every other spelling stands for. */
  function CanonicalPath(path: string): string
    requires ParsePath(path).Some?
  {
    var (ns, segs) := ParsePath(path).value;
    PrintPath(ns, Segs(ns, segs))
  }

  /** The same operation, writing the same value if it writes. */
  predicate SameAction(a: CrudOp, b: CrudOp) {
    match (a, b)
    case (Get(_), Get(_)) => true
    case (Delete(_), Delete(_)) => true
    case (Set(_, v), Set(_, w)) => v == w
    case _ => false
  }

  lemma CanonicalPathParses(path: string)
    requires ParsePath(path).Some?
    ensures var (ns, segs) := ParsePath(path).value; ParsePath(CanonicalPath(path)) == Some((ns, Segs(ns, segs)))
  {
    ParsedPartsArePlain(path);
    var (ns, segs) := ParsePath(path).value;
    PrintedPathParsesBack(ns, Segs(ns, segs));
  }

  lemma SameAddressIff(p: string, q: string)
    requires ParsePath(p).Some? && ParsePath(q).Some?
    ensures var (n, x) := ParsePath(p).value; var (m, y) := ParsePath(q).value;
      (n == m && Segs(n, x) == Segs(m, y)) <==> CanonicalPath(p) == CanonicalPath(q)
  {
    CanonicalPathParses(p);
    CanonicalPathParses(q);
  }

  /** Two payloads reach a handler alike if and only if they ask for the same
      action and spell the same address. */
  lemma RequestsMeetIff(x: Cbor, y: Cbor)
    requires Dispatch(x).Some? && Dispatch(y).Some?
    ensures Dispatch(x) == Dispatch(y) <==>
              && SameAction(Decode(x).value, Decode(y).value)
              && CanonicalPath(Decode(x).value.path) == CanonicalPath(Decode(y).value.path)
  {
    var a, b := Decode(x).value, Decode(y).value;
    SameAddressIff(a.path, b.path);
    if a.Set? && b.Set? {
      assert [a.value] == [b.value] <==> [a.value][0] == [b.value][0];
    }
  }

  /** Each request has one canonical spelling; it goes where the request goes, and
      requests that meet share it. */
  function CanonicalPayload(payload: Cbor): Cbor
    requires Dispatch(payload).Some?
  {
    var op := Decode(payload).value;
    Encode(op.(path := CanonicalPath(op.path)))
  }

  lemma CanonicalPayloadMeets(x: Cbor)
    requires Dispatch(x).Some?
    ensures Dispatch(CanonicalPayload(x)) == Dispatch(x)
  {
    var op := Decode(x).value;
    CanonicalPathParses(op.path);
    var canonical := op.(path := CanonicalPath(op.path));
    if op.Set? {
      NotAVerb(canonical.path);
    }
    EncodedOpDecodesBack(canonical);
  }

  lemma VerbsAreNoNamespaces()
    ensures "get" !in NAMESPACES && "delete" !in NAMESPACES
  {
    assert "get"[0] != "acl"[0] && "delete"[0] != "config"[0];
  }

  lemma NotAVerb(path: string)
    requires ParsePath(path).Some? && ParsePath(path).value.0 in NAMESPACES
    ensures path != ":get" && path != ":delete"
  {
    VerbsAreNoNamespaces();
    hide NAMESPACES, ParsePath;
    BareParses("get");
    BareParses("delete");
    assert ":" + "get" == ":get" && ":" + "delete" == ":delete";
  }

  lemma SharedCanonicalPayload(x: Cbor, y: Cbor)
    requires Dispatch(x).Some? && Dispatch(y).Some?
    ensures Dispatch(x) == Dispatch(y) <==> CanonicalPayload(x) == CanonicalPayload(y)
  {
    RequestsMeetIff(x, y);
    CanonicalPayloadMeets(x);
    CanonicalPayloadMeets(y);
  }

  function GetOf(path: string): Cbor { ArrayItem([TextItem(":get"), TextItem(path)]) }

  /** Different payloads that do meet: with an empty segment more, and, for the
      root ACL, with any segment more. */
  lemma DifferentPayloadsMeet(ns: string, name: string)
    requires ns in NAMESPACES && Plain(ns) && Plain(name)
    ensures var plain, doubled := ":" + ns + ['.'] + name, ":" + ns + ['.'] + ("." + name);
      GetOf(plain) != GetOf(doubled)
      && Dispatch(GetOf(plain)) == Dispatch(GetOf(doubled)) == Some(HandlerCall(ns, Segs(ns, [name]), None, []))
    ensures ns == "acl" ==>
      var bare, longer := ":" + ns, ":" + ns + ['.'] + name;
      GetOf(bare) != GetOf(longer) && Dispatch(GetOf(bare)) == Dispatch(GetOf(longer)) == Some(HandlerCall(ns, [], None, []))
  {
    hide ParsePath, NAMESPACES;
    var bare, plain, doubled := ":" + ns, ":" + ns + ['.'] + name, ":" + ns + ['.'] + ("." + name);
    BareParses(ns);
    Parses(ns, name);
    Parses(ns, "." + name);
    OneSegment(name);
    GetOfIsInjective(plain, doubled);
    GetOfIsInjective(bare, plain);
  }

  lemma GetOfIsInjective(p: string, q: string)
    requires |p| != |q|
    ensures GetOf(p) != GetOf(q)
  {
    assert GetOf(p).items[1] != GetOf(q).items[1];
  }

  lemma OneSegment(name: string)
    requires Plain(name)
    ensures NonEmpty(Split(name, '.')) == NonEmpty(Split("." + name, '.')) == [name]
  {
    SplitSingle(name, '.');
    NonEmptyKeepsPlain([name]);
    assert ("." + name)[1..] == name;
    assert ([""] + [name])[1..] == [name];
  }

  lemma BareParses(ns: string)
    requires Plain(ns)
    ensures ParsePath(":" + ns) == Some((ns, []))
  {
    SplitOnceAt(ns, '.', "");
    assert (":" + ns)[1..] == ns;
    assert Split("", '.') == [""] && NonEmpty([""]) == [];
  }

  lemma Parses(ns: string, rest: string)
    requires Plain(ns)
    ensures ParsePath(":" + ns + ['.'] + rest) == Some((ns, NonEmpty(Split(rest, '.'))))
  {
    SplitOnceAt(ns, '.', rest);
    assert (":" + ns + ['.'] + rest)[1..] == ns + ['.'] + rest;
  }
}
