/**
 * The list backend's types and its export macro: the registration node, the
 * wrapper function that XF_INIT_EXPORT_REGISTRY generates, and when that
 * wrapper is a load-time constructor.
 */
module RegistryDefs {
  import opened Options
  import opened InitLevels
  import InitConfig

  /**
   * The state of a node's own list links: both NULL (never initialised),
   * pointing at itself (an empty list, as XF_LIST_HEAD_INIT leaves it), or
   * threaded into a level list.
   */
  datatype Link = Detached | SelfLinked | Linked

  /** xf_init_registry_desc_node_t: links plus a constant pointer to a descriptor. */
  class DescNode {
    var link: Link
    const pDesc: Option<Desc>

    /** The static node the export macro defines: self-linked, pointing at its descriptor. */
    constructor (pDesc: Option<Desc>)
      ensures link == SelfLinked && this.pDesc == pDesc
    {
      link := SelfLinked;
      this.pDesc := pDesc;
    }
  }

  /** The name prefix of every generated wrapper function. */
  const WrapperPrefix: string := "__xf_init_registry_"

  /** The wrapper's name, `__xf_init_registry_##function`. */
  function WrapperSymbol(ident: string): (s: string)
    ensures |s| == |WrapperPrefix| + |ident|
    ensures s[..|WrapperPrefix|] == WrapperPrefix && s[|WrapperPrefix|..] == ident
  {
    WrapperPrefix + ident
  }

  /** Distinct initialisers get distinct wrapper names, so no two wrappers collide. */
  lemma WrapperSymbolInjective(a: string, b: string)
    requires WrapperSymbol(a) == WrapperSymbol(b)
    ensures a == b
  {
    assert a == WrapperSymbol(a)[|WrapperPrefix|..];
  }

  /**
   * Whether `__constructor` expands to the constructor attribute: only for the
   * constructor method under a GNU compiler (when `__constructor` was not
   * already defined elsewhere).
   */
  predicate WrapperIsConstructor(implMethod: int, gnuc: bool)
    ensures WrapperIsConstructor(implMethod, gnuc) ==>
      gnuc && implMethod != InitConfig.Registry && implMethod != InitConfig.Section
  {
    gnuc && implMethod == InitConfig.Constructor
  }

  /** In registry mode a wrapper is a plain function: it runs only when called explicitly. */
  lemma RegistryWrapperIsPlain(gnuc: bool)
    ensures !WrapperIsConstructor(InitConfig.Registry, gnuc)
    ensures WrapperIsConstructor(InitConfig.Constructor, gnuc) <==> gnuc
  {
  }

  /**
   * What one XF_INIT_EXPORT_REGISTRY(type, function) generates: a wrapper named
   * after the function, possibly a load-time constructor, whose body registers a
   * fresh node for the const descriptor at the given level.
   */
  datatype RegistryExport = RegistryExport(
    wrapper: string, isConstructor: bool, level: Level, desc: Desc)

  /** The level-specific macros XF_INIT_EXPORT_REGISTRY_<L> all pass their own level through. */
  function ExportRegistry(implMethod: int, gnuc: bool, level: Level, ident: string, func: Option<FuncId>): (e: RegistryExport)
    ensures e.level == level
    ensures e.wrapper == WrapperSymbol(ident) && e.desc.funcName == ident && e.desc.func == func
    ensures e.isConstructor <==> gnuc && implMethod == InitConfig.Constructor
  {
    RegistryExport(WrapperSymbol(ident), WrapperIsConstructor(implMethod, gnuc), level, ExportedDesc(ident, func))
  }

  /** The run-time body of a wrapper: which node it registers, at which level. */
  datatype Wrapper = Wrapper(level: Level, node: DescNode)

  /** The wrapper an export generated: it registers, at the export's level, a node pointing at the export's descriptor. */
  predicate Generates(e: RegistryExport, w: Wrapper)
  {
    w.level == e.level && w.node.pDesc == Some(e.desc)
  }

  /**
   * The static definitions inside one generated wrapper: a fresh self-linked
   * node for the export's descriptor, registered at the export's level.
   */
  method DefineWrapper(e: RegistryExport) returns (w: Wrapper)
    ensures Generates(e, w) && w.node.link == SelfLinked && fresh(w.node)
  {
    var node := new DescNode(Some(e.desc));
    w := Wrapper(e.level, node);
  }

  /** The wrapper the symbol s names: its node's descriptor is that of the function s is the wrapper of. */
  predicate GeneratedAs(s: string, w: Wrapper)
  {
    w.node.pDesc.Some? && s == WrapperSymbol(w.node.pDesc.value.funcName)
  }

  /**
   * What XF_INIT_EXPORT_REGISTRY(type, function) generates is the wrapper
   * named after the function, registering a node for the function's descriptor
   * at the given level.
   */
  lemma ExportGeneratesWrapper(implMethod: int, gnuc: bool, level: Level, ident: string, func: Option<FuncId>, w: Wrapper)
    requires Generates(ExportRegistry(implMethod, gnuc, level, ident, func), w)
    ensures GeneratedAs(ExportRegistry(implMethod, gnuc, level, ident, func).wrapper, w)
    ensures w.level == level && w.node.pDesc == Some(ExportedDesc(ident, func))
  {
  }

  /** Wrappers under different symbols register different nodes: each export has its own static node. */
  lemma GeneratedNodesDistinct(s: string, t: string, v: Wrapper, w: Wrapper)
    requires GeneratedAs(s, v) && GeneratedAs(t, w) && s != t
    ensures v.node != w.node
  {
  }
}
