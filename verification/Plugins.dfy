/** Loaded entities (src/plugin.rs): what the registry keeps of one, and when
    loading produces one. */
module Plugins {
  import opened Text
  import opened Ipld

  datatype Plugin = Plugin(fragment: string, stateful: bool, native: bool, acl: string, parent: Option<string>)

  type Registry = map<string, Plugin>

  /** What fetching, instantiating and initialising the Wasm module comes to. */
  datatype Wasm = Broken | InitOk | InitError

  /** Only Wasm kinds can be loaded, and only with a behaviour. A kind without an
      `init` export starts running; a failed `init` still yields a plugin. */
  function LoadPlugin(fragment: string, node: EntityNode, kind: KindNode, wasm: Wasm): Option<(Plugin, Lifecycle)> {
    if kind.evaluator != Extism || node.behaviour.None? || wasm.Broken? then None
    else
      Some((Plugin(fragment, kind.Stateful(), false, node.acl, node.parent),
            if "init" in kind.api && wasm.InitError? then Error else Running))
  }
}
