/** The build configuration: the method constants, the default method and the manifest-path check. */
module InitConfig {
  import opened Options

  /** XF_INIT_IMPL_BY_SECTION, XF_INIT_IMPL_BY_CONSTRUCTOR, XF_INIT_IMPL_BY_REGISTRY. */
  const Section: int := 0
  const Constructor: int := 1
  const Registry: int := 2

  /**
   * What the user's xf_init_config.h defines: XF_INIT_IMPL_METHOD (any integer
   * constant, or not defined) and XF_INIT_USER_REGISTRY_PATH (or not defined).
   */
  datatype BuildConfig = BuildConfig(implMethod: Option<int>, registryPath: Option<string>)

  datatype ConfigError = MissingRegistryPath

  /** The outcome of preprocessing the configuration: the effective method, or an #error. */
  datatype Checked = Accepted(impl: int) | Rejected(error: ConfigError)

  /** The effective XF_INIT_IMPL_METHOD after the default is applied. */
  function ImplMethod(c: BuildConfig): (m: int)
    ensures c.implMethod.None? ==> m == Section
    ensures c.implMethod.Some? ==> m == c.implMethod.value
  {
    match c.implMethod
    case None => Section
    case Some(v) => v
  }

  /** The #if / #error check of the configuration header. */
  function CheckConfig(c: BuildConfig): (r: Checked)
    ensures r.Accepted? ==> r.impl == ImplMethod(c)
    ensures r.Rejected? ==> r.error == MissingRegistryPath && c.registryPath.None?
  {
    if ImplMethod(c) == Registry && c.registryPath.None? then Rejected(MissingRegistryPath)
    else Accepted(ImplMethod(c))
  }

  /** The build fails exactly when the registry method is selected without a manifest path. */
  lemma CheckConfigRejectsExactly(c: BuildConfig)
    ensures CheckConfig(c).Rejected? <==> ImplMethod(c) == Registry && c.registryPath.None?
    ensures CheckConfig(c).Accepted? ==> CheckConfig(c).impl == ImplMethod(c)
  {
  }

  /** An empty configuration selects the section backend and is accepted. */
  lemma DefaultIsSection()
    ensures CheckConfig(BuildConfig(None, None)) == Accepted(Section)
  {
  }

  /**
   * Every method other than the registry one is accepted without a path,
   * including values outside 0..2: nothing restricts the range.
   */
  lemma OtherMethodsNeedNoPath(m: int, path: Option<string>)
    requires m != Registry
    ensures CheckConfig(BuildConfig(Some(m), path)) == Accepted(m)
  {
  }

  /** With a path, the registry method is accepted. */
  lemma RegistryWithPathAccepted(p: string)
    ensures CheckConfig(BuildConfig(Some(Registry), Some(p))) == Accepted(Registry)
  {
  }
}
