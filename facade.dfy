/**
 * The backend-independent export facade: what XF_INIT_EXPORT_<L>(function)
 * stands for under each build configuration, and what the backend macro it
 * names then produces.
 */
module InitFacade {
  import opened Options
  import opened InitLevels
  import InitConfig
  import SectionDefs
  import RegistryDefs

  /** The macro XF_INIT_EXPORT_<L> is defined as. */
  datatype Expansion =
    /** XF_INIT_EXPORT_SECTION_<L> of the same level. */
    | ViaSection(level: Level)
    /** XF_INIT_EXPORT_REGISTRY_<L> of the same level. */
    | ViaRegistry(level: Level)
    /** The documentation-only definition, whose body is empty. */
    | Documentation

  /**
   * The #if / #elif chain choosing the facade's definitions: the documentation
   * branch first, then the section method, then the registry and constructor
   * methods. There is no #else, so any other method leaves the macro undefined.
   */
  function ExportMacro(doxygen: bool, implMethod: int, level: Level): (r: Option<Expansion>)
    ensures r == Some(Documentation) <==> doxygen
    ensures r.Some? && !r.value.Documentation? ==> r.value.level == level
  {
    if doxygen then Some(Documentation)
    else if implMethod == InitConfig.Section then Some(ViaSection(level))
    else if implMethod == InitConfig.Registry || implMethod == InitConfig.Constructor then Some(ViaRegistry(level))
    else None
  }

  /**
   * Outside the documentation build, XF_INIT_EXPORT_<L> is defined exactly for
   * the three methods; it names the section macro under the section method,
   * the registry macro under the other two, and always one of the same level.
   */
  lemma ExportMacroPreservesLevel(implMethod: int, level: Level)
    ensures ExportMacro(false, implMethod, level).Some? <==>
      implMethod in {InitConfig.Section, InitConfig.Constructor, InitConfig.Registry}
    ensures implMethod == InitConfig.Section ==> ExportMacro(false, implMethod, level) == Some(ViaSection(level))
    ensures implMethod == InitConfig.Registry || implMethod == InitConfig.Constructor ==>
      ExportMacro(false, implMethod, level) == Some(ViaRegistry(level))
  {
  }

  /** Two different levels never share a definition: the eight facade macros are distinct. */
  lemma ExportMacroDistinguishesLevels(implMethod: int, a: Level, b: Level)
    requires ExportMacro(false, implMethod, a).Some? && a != b
    ensures ExportMacro(false, implMethod, a) != ExportMacro(false, implMethod, b)
  {
  }

  /** What expanding XF_INIT_EXPORT_<L>(function) leaves in the program. */
  datatype Artifact =
    /** A const descriptor placed in a section. */
    | SectionEntry(placed: SectionDefs.Placed)
    /** A wrapper function that registers a node. */
    | RegistryEntry(generated: RegistryDefs.RegistryExport)

  /**
   * The expansion, carried through to the backend macro's output: nothing for
   * the documentation body, and nothing for a section build without a GNU
   * compiler, which the section header stops with an #error.
   */
  function ExportArtifact(doxygen: bool, implMethod: int, gnuc: bool, level: Level, ident: string, func: Option<FuncId>): (r: Option<Artifact>)
    ensures r.Some? <==>
      && !doxygen && implMethod in {InitConfig.Section, InitConfig.Constructor, InitConfig.Registry}
      && (gnuc || implMethod != InitConfig.Section)
    ensures r.Some? ==> (r.value.SectionEntry? <==> implMethod == InitConfig.Section)
  {
    match ExportMacro(doxygen, implMethod, level)
    case None => None
    case Some(Documentation) => None
    case Some(ViaSection(l)) =>
      if gnuc then Some(SectionEntry(SectionDefs.ExportSectionLevel(l, ident, func))) else None
    case Some(ViaRegistry(l)) => Some(RegistryEntry(RegistryDefs.ExportRegistry(implMethod, gnuc, l, ident, func)))
  }

  /**
   * End to end, an export at level L lands at level L in whichever backend is
   * configured: the section entry's name reads back as L, the registry
   * wrapper registers at L, and both carry the function and its name. Only a
   * section build without a GNU compiler produces nothing.
   */
  lemma ExportLandsAtItsLevel(implMethod: int, gnuc: bool, level: Level, ident: string, func: Option<FuncId>)
    requires implMethod in {InitConfig.Section, InitConfig.Constructor, InitConfig.Registry}
    ensures ExportArtifact(false, implMethod, gnuc, level, ident, func).Some? <==> gnuc || implMethod != InitConfig.Section
    ensures ExportArtifact(false, implMethod, gnuc, level, ident, func).Some? ==>
      match ExportArtifact(false, implMethod, gnuc, level, ident, func).value
      case SectionEntry(p) =>
        implMethod == InitConfig.Section
        && SectionDefs.SectionLevel(p.section) == Some(level) && p.desc == ExportedDesc(ident, func)
      case RegistryEntry(x) =>
        implMethod != InitConfig.Section
        && x.level == level && x.desc == ExportedDesc(ident, func)
        && (x.isConstructor <==> gnuc && implMethod == InitConfig.Constructor)
  {
    ExportMacroPreservesLevel(implMethod, level);
  }

  /**
   * A configuration the build accepts with one of the three methods defines
   * every facade macro; the default configuration maps them to the section backend.
   */
  lemma AcceptedConfigDefinesFacade(c: InitConfig.BuildConfig, level: Level)
    requires InitConfig.CheckConfig(c).Accepted?
    ensures InitConfig.CheckConfig(c).impl in {InitConfig.Section, InitConfig.Constructor, InitConfig.Registry} ==>
      ExportMacro(false, InitConfig.CheckConfig(c).impl, level).Some?
    ensures c.implMethod.None? ==> ExportMacro(false, InitConfig.CheckConfig(c).impl, level) == Some(ViaSection(level))
  {
  }

  /** The documentation build defines every facade macro with an empty body and exports nothing. */
  lemma DocumentationExportsNothing(implMethod: int, gnuc: bool, level: Level, ident: string, func: Option<FuncId>)
    ensures ExportMacro(true, implMethod, level) == Some(Documentation)
    ensures ExportArtifact(true, implMethod, gnuc, level, ident, func).None?
  {
  }

  /** The facade exposes exactly the eight levels SETUP up to APP, each once and in order. */
  lemma FacadeLevels(implMethod: int, level: Level)
    requires implMethod in {InitConfig.Section, InitConfig.Constructor, InitConfig.Registry}
    ensures level in AllLevels() && |AllLevels()| == LevelCount
    ensures forall i | 0 <= i < |AllLevels()| :: ExportMacro(false, implMethod, AllLevels()[i]).Some?
  {
    AllLevelsExactlyOnce(level);
  }
}
