/** The documents the runtime stores (src/entity.rs) and the store that holds
    them (src/kubo.rs): blocks under content identifiers, and pins on roots. */
module Ipld {
  import opened Text
  import Acl
  import Trie

  type Cid = Trie.Cid

  datatype Json = JsonBool(b: bool) | JsonOther(text: string)
  datatype Evaluator = Extism | Native | Bash | Lua

  datatype KindNode = KindNode(protocol: string, api: seq<string>, hostFunctions: seq<string>,
                               evaluator: Evaluator, attributes: map<string, Json>, allow: seq<string>)
  {
    /** Read from the explicit attribute, never inferred from the exports. */
    predicate Stateful() {
      "stateful" in attributes && attributes["stateful"] == JsonBool(true)
    }
  }

  datatype Lifecycle = New | Running | Error | Stopped

  datatype EntityNode = EntityNode(kind: string, behaviour: Option<Cid>, acl: string, state: Option<Cid>,
                                   parent: Option<string>, displayLabel: Option<string>, lifecycle: Lifecycle)

  datatype Yaml = YamlText(text: string) | YamlSeq(items: seq<Yaml>) | YamlOther(text: string)

  datatype Manifest = Manifest(acl: Option<Cid>, acls: map<string, Cid>, protocol: string, kinds: Trie.Tree,
                               entities: map<string, Cid>, i18n: map<string, Cid>, config: map<string, Yaml>)

  datatype Block =
    | KindBlock(kind: KindNode)
    | EntityBlock(entity: EntityNode)
    | AclBlock(acl: Acl.AclMap)
    | ManifestBlock(manifest: Manifest)

  /** Outcomes of the two requests a pin move may need. */
  datatype PinNet = PinNet(updateOk: bool, addOk: bool)

  ghost predicate SameCid(cidOf: Block -> Cid, a: Block, b: Block) {
    cidOf(a) == cidOf(b)
  }

  /** `cidOf` is the content hash. A block of one type never reads as another. */
  datatype Kubo = Kubo(cidOf: Block -> Cid, blocks: map<Cid, Block>, pins: set<Cid>)
  {
    /** Different blocks have different identifiers, and every block is stored
        under its own. */
    ghost predicate Valid() {
      && (forall a, b :: SameCid(cidOf, a, b) ==> a == b)
      && (forall c :: c in blocks ==> c == cidOf(blocks[c]))
    }

    ghost predicate Has(b: Block) {
      cidOf(b) in blocks && blocks[cidOf(b)] == b
    }

    function Put(b: Block): Kubo {
      this.(blocks := blocks[cidOf(b) := b])
    }

    /** Move the pin from `old` to `new`; when `old` was not pinned, pin `new`.
        The flag says whether the call succeeded. */
    function PinUpdate(old_: Cid, new_: Cid, net: PinNet): (Kubo, bool) {
      if !net.updateOk then (this, false)
      else if old_ in pins then (this.(pins := pins - {old_} + {new_}), true)
      else PinAdd(new_, net.addOk)
    }

    function PinAdd(cid: Cid, ok: bool): (Kubo, bool) {
      if ok then (this.(pins := pins + {cid}), true) else (this, false)
    }

    function GetManifest(cid: Cid): Option<Manifest> {
      if cid in blocks && blocks[cid].ManifestBlock? then Some(blocks[cid].manifest) else None
    }

    function GetEntity(cid: Cid): Option<EntityNode> {
      if cid in blocks && blocks[cid].EntityBlock? then Some(blocks[cid].entity) else None
    }

    function GetKind(cid: Cid): Option<KindNode> {
      if cid in blocks && blocks[cid].KindBlock? then Some(blocks[cid].kind) else None
    }

    function GetAcl(cid: Cid): Option<Acl.AclMap> {
      if cid in blocks && blocks[cid].AclBlock? then Some(blocks[cid].acl) else None
    }

    /** The same store as seen while some identifiers cannot be fetched. */
    function Without(down: set<Cid>): Kubo {
      this.(blocks := blocks - down)
    }
  }

  /** Later stores only add blocks. */
  ghost predicate Grows(k: Kubo, k': Kubo) {
    k'.cidOf == k.cidOf && forall c :: c in k.blocks ==> c in k'.blocks && k'.blocks[c] == k.blocks[c]
  }

  lemma PutGrows(k: Kubo, b: Block)
    requires k.Valid()
    ensures k.Put(b).Valid() && Grows(k, k.Put(b)) && k.Put(b).Has(b)
  {
    if k.cidOf(b) in k.blocks {
      assert SameCid(k.cidOf, k.blocks[k.cidOf(b)], b);
    }
  }

  /** A pin is moved, or, when the old root had none, set afresh; a request that is
      needed and fails leaves the pins as they were. */
  lemma PinMoves(k: Kubo, old_: Cid, new_: Cid, net: PinNet)
    ensures var (k', ok) := k.PinUpdate(old_, new_, net);
      && k'.blocks == k.blocks && k'.cidOf == k.cidOf
      && (ok <==> net.updateOk && (old_ in k.pins || net.addOk))
      && (ok ==> new_ in k'.pins && forall c :: c != new_ ==> (c in k'.pins <==> c in k.pins && c != old_))
      && (!ok ==> k'.pins == k.pins)
  {}
}
