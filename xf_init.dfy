/**
 * xf_init: the single entry point that runs the backend the build selected
 * and reports success whatever the initialisers returned.
 */
module XfInit {
  import opened InitLevels
  import InitConfig
  import opened RegistryDefs
  import opened InitRegistry
  import opened SectionDefs
  import opened InitSection

  /** xf_err_t, as far as xf_init uses it. */
  datatype Err = Ok | Fail

  /**
   * xf_init: with the registry or constructor method, run xf_init_from_registry
   * once; with the section method, run xf_init_from_section once; with any
   * other method, run nothing. The result is always XF_OK. It takes no
   * arguments, so no pre- or post-initialisation hook is called. Only the
   * registry and constructor methods use the level lists, so only they need
   * them set up.
   */
  method Init(implMethod: int, reg: Registry, img: SectionImage,
              manifest: seq<string>, wrappers: map<string, Wrapper>, behaviour: FuncId -> int)
    returns (err: Err)
    requires implMethod == InitConfig.Registry || implMethod == InitConfig.Constructor ==> reg.Valid() && reg.HeadsReady()
    requires implMethod == InitConfig.Registry ==> ManifestReady(manifest, wrappers)
    requires implMethod == InitConfig.Section ==> img.Valid()
    modifies reg`linked, reg`trace, reg.heads, ManifestNodes(manifest, wrappers), img`trace
    ensures err == Ok
    ensures old(reg.Valid() && reg.HeadsReady()) ==> reg.Valid() && reg.HeadsReady()
    ensures implMethod == InitConfig.Registry || implMethod == InitConfig.Constructor ==>
      && (implMethod == InitConfig.Registry ==>
            reg.Lists() == RegisterAll(old(reg.Lists()), Registrations(manifest, wrappers)))
      && (implMethod == InitConfig.Constructor ==> reg.Lists() == old(reg.Lists()))
      && reg.trace == old(reg.trace) + Schedule(reg.Lists())
      && img.trace == old(img.trace)
    ensures implMethod == InitConfig.Section ==>
      && img.trace == old(img.trace) + InvokedBetween(img.region[..], img.start + 1, img.end)
      && reg.trace == old(reg.trace) && reg.Lists() == old(reg.Lists())
    ensures implMethod == InitConfig.Section && SortedBySection(img.layout) && WellPlaced(img.layout, img.start, img.end) ==>
      img.trace == old(img.trace) + ByLevels(Classify(img.layout), 0, |img.layout|, LevelCount)
    ensures implMethod != InitConfig.Registry ==> reg.linked == old(reg.linked) && unchanged(ManifestNodes(manifest, wrappers))
    ensures implMethod !in {InitConfig.Section, InitConfig.Constructor, InitConfig.Registry} ==>
      && reg.trace == old(reg.trace) && reg.Lists() == old(reg.Lists())
      && img.trace == old(img.trace)
  {
    if implMethod == InitConfig.Registry || implMethod == InitConfig.Constructor {
      reg.FromRegistry(implMethod, manifest, wrappers, behaviour);
    } else if implMethod == InitConfig.Section {
      if SortedBySection(img.layout) && WellPlaced(img.layout, img.start, img.end) {
        img.WalkIsLevelOrdered();
      }
      img.FromSection(behaviour);
    }
    err := Ok;
  }
}
