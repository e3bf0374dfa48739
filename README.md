# xf_init: a verified model of staged boot initialisation

xf_init lets firmware modules register `int f(void)` initialisers at one of
eight ordered levels: SETUP, BOARD, PREV, CLEANUP, DEVICE, COMPONENT, ENV and
APP. A call to `xf_init()` then runs them level by level. The build selects
one of three backends:

- **section**: every export places a const descriptor in a linker section
  named `".xf_auto_init."` followed by the level digit. The dispatcher walks
  the packed array strictly between the start marker (at `"0"`) and the end
  marker (at `"9"`). The section header stops any build made without a GNU
  compiler with an `#error`.
- **constructor**: under a GNU compiler, every export generates a load-time
  constructor. Each constructor appends a static node to its level's list,
  and the dispatcher walks the eight lists in level order. Without a GNU
  compiler, the wrappers are plain functions that nothing calls, so nothing
  is registered.
- **registry**: the same wrappers are plain functions. The wrappers a user
  manifest names are declared and then called, in manifest order, before the
  lists are walked.

The model follows the source files. `src/registry/xf_init_registry.h` is
split over two modules, and the descriptor is shared by both backends.

- `InitLevels` (`levels.dfy`): the level enumeration of
  `xf_init_registry.h`. It also holds the descriptor, which stands both for
  `xf_init_registry_desc_t` and for `xf_init_section_desc_t` of
  `xf_init_section.h`; the two have the same shape.
- `InitConfig` (`config.dfy`): the build configuration check.
- `RegistryDefs` (`registry_defs.dfy`): the rest of `xf_init_registry.h`:
  the node, the wrapper and the registry export macro, and which wrapper an
  export generates.
- `RegistryRule` (`registry_rule.dfy`): the rule header's two-pass manifest
  expansion.
- `InitRegistry` (`registry.dfy`): the list backend.
  - It is a class `Registry` over an array of eight list heads.
  - A ghost trace records the descriptors invoked.
  - The lists' abstract value is `Lists()`, one `seq` of nodes per level.
- `SectionDefs` (`section_defs.dfy`): section names, their lexicographic
  order, and the section export macro.
- `InitSection` (`section.dfy`): the array backend.
  - It is a class `SectionImage` over an `array<Desc>` with the two marker
    indices, also with a ghost trace.
- `InitFacade` (`facade.dfy`): the backend-independent `XF_INIT_EXPORT_<L>`
  macros.
- `XfInit` (`xf_init.dfy`): the dispatcher itself.

`Options` and `Sequences` hold an option type and three facts of sequence
algebra.

These are the main results:

- **List backend.** The dispatch trace is the concatenation, in level order,
  of each level's registration-order list with non-runnable entries dropped.
  - This equality is `Schedule`, the contract of `Registry.RunLevels`.
  - `ScheduleSplit`, `LevelSegment`, `ScheduleMembership`, `InvokedCount` and
    `ScheduleOfEightLevels` prove the consequences.
  - The registry invariant keeps every node in at most one list, once, as a
    node's single embedded link requires. So a runnable descriptor that
    exactly one listed node points at is dispatched exactly once
    (`Registry.ListedDescDispatchedOnce`).
- **Array backend.** Given a layout sorted by section name that has the
  markers at its ends, the walk between the markers invokes each level's
  entries in placement order, one level after another in level order. This
  is `SectionDispatchIsLevelOrder`.
- **Section names.** The level-to-section mapping is strictly monotone in
  both directions. This is `SectionOrderIsLevelOrder`.

## Model

| member | source | states |
|---|---|---|
| InitLevels.Ordinal | src/registry/xf_init_registry.h:39-50 | every level's enumerator value is below `XF_INIT_REGISTRY_TYPE_MAX` = 8 |
| InitLevels.LevelAt | src/registry/xf_init_registry.h:39-50 | each value 0..7 is the enumerator value of the level it names |
| InitLevels.LevelAtOrdinal | src/registry/xf_init_registry.h:39-50 | levels and the values 0..7 are in bijection |
| InitLevels.AllLevels | src/registry/xf_init_registry.c:72 | the dispatch loop's levels: eight of them, the i-th with value i |
| InitLevels.AllLevelsExactlyOnce | src/registry/xf_init_registry.c:72 | the loop visits each level exactly once, in strictly ascending order |
| InitLevels.ExportedDesc | src/registry/xf_init_registry.h:110-113 | the descriptor holds the function and the function's identifier |
| InitConfig.ImplMethod | src/xf_init_config_internal.h:31-33 | with no method configured, the method is SECTION; otherwise it is the configured value |
| InitConfig.CheckConfig | src/xf_init_config_internal.h:35-37 | an accepted configuration runs with its effective method; the only rejection is the missing manifest path |
| InitConfig.CheckConfigRejectsExactly | src/xf_init_config_internal.h:35-37 | the build fails exactly when REGISTRY is selected without a manifest path; otherwise the effective method is accepted |
| InitConfig.DefaultIsSection | src/xf_init_config_internal.h:26-33 | an empty configuration is accepted as SECTION (0) |
| InitConfig.OtherMethodsNeedNoPath | src/xf_init_config_internal.h:31-37 | any method other than REGISTRY, even outside 0..2, is accepted without a path |
| InitConfig.RegistryWithPathAccepted | src/xf_init_config_internal.h:35-37 | REGISTRY with a path is accepted |
| RegistryDefs.DescNode.constructor | src/registry/xf_init_registry.h:114-117 | the generated node starts self-linked and points at its descriptor |
| RegistryDefs.WrapperSymbol | src/registry/xf_init_registry.h:109 | the wrapper name is `__xf_init_registry_` followed by the function's identifier |
| RegistryDefs.WrapperSymbolInjective | src/registry/xf_init_registry.h:109 | different identifiers give different wrapper names |
| RegistryDefs.WrapperIsConstructor | src/registry/xf_init_registry.h:28-32 | a wrapper is a constructor only under a GNU compiler, and never under REGISTRY or SECTION |
| RegistryDefs.RegistryWrapperIsPlain | src/registry/xf_init_registry.h:28-32 | under REGISTRY the wrapper is never a constructor; under CONSTRUCTOR it is one exactly with a GNU compiler |
| RegistryDefs.ExportRegistry | src/registry/xf_init_registry.h:108-192 | each `XF_INIT_EXPORT_REGISTRY_<L>` gives a wrapper that registers at level L, with the function and its name in the descriptor |
| RegistryDefs.DefineWrapper | src/registry/xf_init_registry.h:110-118 | the wrapper's static node is new, starts self-linked, points at the export's descriptor, and is registered at the export's level |
| RegistryDefs.ExportGeneratesWrapper | src/registry/xf_init_registry.h:108-118 | the wrapper an export generates is the one its symbol names, registering the function's descriptor at the export's level |
| RegistryDefs.GeneratedNodesDistinct | src/registry/xf_init_registry.h:114-117 | wrappers under different symbols register different static nodes |
| RegistryRule.IncludeRule | src/registry/xf_init_registry_rule.h:28-39 | after an inclusion both flags are undefined and the macro follows the selected action; nothing is expanded exactly when neither flag was set |
| RegistryRule.DeclareWins | src/registry/xf_init_registry_rule.h:30-36 | DECLARE takes precedence over CALL; CALL alone expands to calls |
| RegistryRule.FlagsDoNotCarryOver | src/registry/xf_init_registry_rule.h:38-39 | including the rule twice without setting a flag again expands nothing the second time |
| RegistryRule.CallsOfDeclarePass | src/registry/xf_init_registry_rule.h:30-31 | a declare pass calls no wrapper |
| RegistryRule.CallsOfCallPass | src/registry/xf_init_registry_rule.h:32-33 | a call pass calls the wrappers of the manifest entries, in manifest order |
| RegistryRule.ExplicitCallExpansion | src/registry/xf_init_registry.c:85-91 | the body has twice as many statements as the manifest: first one extern declaration per entry, then one call per entry, both in manifest order |
| RegistryRule.ExplicitCallIsDeclareThenCall | src/registry/xf_init_registry.c:85-91 | whatever the macro state before it, the body is the declare expansion followed by the call expansion |
| RegistryRule.ExplicitCallCalls | src/registry/xf_init_registry.c:85-91 | the two passes call exactly the manifest's wrappers, once each, in manifest order |
| RegistryRule.ExplicitCallAt | src/registry/xf_init_registry.c:85-91 | there is one call per entry, and the i-th call is the wrapper of the i-th entry |
| InitRegistry.Registry.constructor | src/registry/xf_init_registry.c:32-41 | statically, all eight heads are set up and every level list is empty |
| InitRegistry.Registry.BeforeStaticInit | src/registry/xf_init_registry.c:50-53 | a state whose heads were never set up: every list is empty too |
| InitRegistry.Registry.Register | src/registry/xf_init_registry.c:48-59 | the node is appended at the tail of level t's list; a head that was not set up is set up first; the other seven heads are unchanged, set-up state included; every listed node stays listed exactly once |
| InitRegistry.ScheduleAfterRegister | src/registry/xf_init_registry.c:58 | a registration at level k adds the node's descriptor, when runnable, at the end of level k's segment of the dispatch and moves nothing else |
| InitRegistry.RegisterAllStep | src/registry/xf_init_registry.c:58 | one more wrapper call appends one node at its level |
| InitRegistry.RegisterAllPerLevel | src/registry/xf_init_registry.c:58 | after a sequence of registrations, each level's list is its old list followed by that level's nodes in call order |
| InitRegistry.RegisteredExportIsDispatched | src/registry/xf_init_registry.c:58-79 | a registered export with a function is invoked in its own level's segment, and so by the dispatch |
| InitRegistry.ManifestExportIsDispatched | src/registry/xf_init_registry.c:68-79 | after the manifest pass, the export behind every entry with a function is dispatched |
| InitRegistry.ManifestNodesDistinct | src/registry/xf_init_registry.h:114-118 | distinct manifest entries register distinct static nodes, derived from each wrapper being its export's |
| InitRegistry.Registry.RunList | src/registry/xf_init_registry.c:73-77 | one list is walked head to tail, and every runnable node's descriptor is invoked whatever its result |
| InitRegistry.Registry.RunLists | src/registry/xf_init_registry.c:72-79 | the levels are walked in order, each list in full |
| InitRegistry.Registry.RunLevels | src/registry/xf_init_registry.c:72-79 | the trace grows by `Schedule` of the lists; the lists are not modified |
| InitRegistry.InvokedMembership | src/registry/xf_init_registry.c:74-75 | a descriptor is invoked iff it has a non-NULL function and some node of the list points at it |
| InitRegistry.InvokedCount | src/registry/xf_init_registry.c:74-75 | a runnable descriptor is invoked once per node pointing at it; a NULL function never |
| InitRegistry.ScheduleUpToCount | src/registry/xf_init_registry.c:72-77 | the dispatch of the first m levels invokes a runnable descriptor once per listed node pointing at it, summed over those levels; a NULL function never |
| InitRegistry.ListedOnceAppend | src/registry/xf_init_registry.c:58 | appending a node that no list holds keeps every node in at most one list, once, as the single embedded link allows |
| InitRegistry.ThreadedAppend | src/registry/xf_init_registry.c:58 | appending an unthreaded node and marking it keeps every listed node marked and listed once |
| InitRegistry.DispatchedOnce | src/registry/xf_init_registry.c:72-77 | when every node is listed once, a runnable descriptor that exactly one listed node points at is dispatched exactly once |
| InitRegistry.Registry.ListedDescDispatchedOnce | src/registry/xf_init_registry.c:72-77 | in a valid registry, a runnable descriptor that exactly one listed node points at is invoked exactly once by the level loop |
| InitRegistry.InvokedAppend | src/registry/xf_init_registry.c:73 | walking a concatenated list walks the first part, then the second |
| InitRegistry.ScheduleAppend | src/registry/xf_init_registry.c:72 | dispatching consecutive groups of levels runs the first group's entries, then the second's |
| InitRegistry.ScheduleSplit | src/registry/xf_init_registry.c:72-73 | every entry of a lower level runs before level k's entries, which run before every entry of a higher level |
| InitRegistry.LevelSegment | src/registry/xf_init_registry.c:72-73 | level k's segment of the dispatch is exactly its list with non-runnable nodes dropped |
| InitRegistry.ScheduleOfEightLevels | src/registry/xf_init_registry.c:72-79 | the dispatch is SETUP's entries, then BOARD's, and so on up to APP's |
| InitRegistry.ScheduleMembership | src/registry/xf_init_registry.c:72-77 | a descriptor is dispatched iff some level invokes it |
| InitRegistry.Registry.CallWrapper | src/registry/xf_init_registry.h:118 | running a wrapper registers its node at its level |
| InitRegistry.Registry.ExplicitCallRegistry | src/registry/xf_init_registry.c:85-91 | the manifest pass registers every entry's node at its level, in manifest order |
| InitRegistry.Registry.CallAll | src/registry/xf_init_registry.c:89-90 | the calls the second include expands to, run in order on pairwise distinct unlinked nodes, register each wrapper at its level in that order |
| InitRegistry.Registry.FromRegistry | src/registry/xf_init_registry.c:61-80 | under REGISTRY the manifest pass completes first; every mode then dispatches the resulting lists in level order; outside REGISTRY no node is linked or touched |
| SectionDefs.LevelString | src/section/xf_init_section.h:94-157 | SETUP's string is "1", and so on up to APP's "8": one digit, its value one more than the enumerator value |
| SectionDefs.SectionName | src/section/xf_init_section.h:81 | a section name is the prefix `.xf_auto_init.` followed by the level string |
| SectionDefs.SectionOrder | src/section/xf_init_section.h:81 | names that share the prefix compare as their level digits do |
| SectionDefs.SectionOrderIsLevelOrder | src/section/xf_init_section.h:94-157 | one level's section sorts before another's iff its level comes first |
| SectionDefs.MarkersBracketLevels | src/section/xf_init_section.c:28-30 | the start marker's section "0" sorts before every level's section and the end marker's "9" after |
| SectionDefs.SectionLevel | src/section/xf_init_section.h:81 | a name that reads as a level is that level's section name |
| SectionDefs.SectionLevelRoundTrip | src/section/xf_init_section.h:94-157 | each level's section name reads back as that level; neither marker's section reads as a level |
| SectionDefs.ExportSection | src/section/xf_init_section.h:80-85 | the const descriptor is named `__xf_init_` followed by the identifier, is placed in the level's section, and holds the function and its name |
| SectionDefs.ExportSectionLevel | src/section/xf_init_section.h:94-157 | `XF_INIT_EXPORT_SECTION_<L>` places its descriptor in a section that reads as level L |
| SectionDefs.StartMarker | src/section/xf_init_section.c:27-28 | `__xf_init_start` sits at the "0" section, which is no level |
| SectionDefs.EndMarker | src/section/xf_init_section.c:29-30 | `__xf_init_end` sits at the "9" section, which is no level |
| SectionDefs.SortedLayoutIsLevelOrdered | src/section/xf_init_section.h:81 | in a layout sorted by section name, an earlier level entry's level is never after a later one's |
| SectionDefs.MarkersEncloseLevelEntries | src/section/xf_init_section.c:28-30 | in a sorted, well-placed layout the start marker precedes the end marker, and an index lies strictly between them iff it holds a level entry |
| InitSection.SectionImage.FromSection | src/section/xf_init_section.c:38-50 | from the entry after the start marker up to the end marker, every descriptor with a function is invoked, in array order, whatever it returns |
| InitSection.InvokedBetweenMembership | src/section/xf_init_section.c:43-46 | a descriptor is invoked iff its function is non-NULL and it lies strictly between the markers; neither marker is invoked |
| InitSection.InvokedBetweenCount | src/section/xf_init_section.c:43-47 | a walked descriptor is invoked once per position holding it, and one with a NULL function never |
| InitSection.InvokedBetweenSplit | src/section/xf_init_section.c:43 | the walk runs in array order |
| InitSection.NothingInvoked | src/section/xf_init_section.c:43-46 | nothing is invoked iff no walked entry has a function; in particular, when the markers are adjacent |
| InitSection.Rank | src/section/xf_init_section.h:81 | a section reads as a level value exactly when it is a level's section, and that value is the level's enumerator value |
| InitSection.WalkIsLevelOrder | src/section/xf_init_section.c:43-47 | over a stretch of level entries in ascending level order, the walk is each level's entries in placement order, level after level |
| InitSection.SectionDispatchIsLevelOrder | src/section/xf_init_section.c:42-49 | in a layout sorted by section name with the markers placed, the dispatch is each level's entries in placement order, in level order, and nothing else |
| InitSection.SectionImage.WalkIsLevelOrdered | src/section/xf_init_section.c:42-49 | the same for the linked image's array |
| InitFacade.ExportMacro | src/xf_init.h:189-224 | the documentation definition appears exactly in the documentation build, and every other definition keeps the macro's level |
| InitFacade.ExportArtifact | src/xf_init.h:189-224 | an export produces something exactly outside the documentation build, under one of the three methods, and not in a SECTION build without a GNU compiler, which the `#error` at `xf_init_section.h` lines 34-35 stops; it is a section entry exactly under SECTION |
| InitFacade.AcceptedConfigDefinesFacade | src/xf_init.h:189-224 | a build accepted with one of the three methods defines every facade macro; the default build maps them to the section backend |
| InitFacade.ExportMacroPreservesLevel | src/xf_init.h:189-224 | `XF_INIT_EXPORT_<L>` names the section macro of level L under SECTION and the registry macro of level L under REGISTRY or CONSTRUCTOR; it is defined exactly for these three methods |
| InitFacade.ExportMacroDistinguishesLevels | src/xf_init.h:189-224 | two different levels never share a definition |
| InitFacade.ExportLandsAtItsLevel | src/xf_init.h:189-224 | under each of the three methods an export produces an artifact unless it is a SECTION build without a GNU compiler (stopped by the section header's `#error`), and then it lands at level L in the configured backend, carrying the function and its name |
| InitFacade.DocumentationExportsNothing | src/xf_init.h:90-187 | the documentation build defines every facade macro with an empty body |
| InitFacade.FacadeLevels | src/xf_init.h:104-187 | exactly the eight levels SETUP..APP are exposed, and each has a definition |
| XfInit.Init | src/xf_init.c:30-42 | REGISTRY or CONSTRUCTOR runs the list backend once, SECTION runs the array backend once, any other method runs nothing; only the two list methods need the level lists set up, and only REGISTRY links or touches a node; the result is always XF_OK |

## Left out

- The `xf_list_t` operations (`xf_list_init`, `xf_list_add_tail`,
  `xf_list_for_each_entry`) come from xf_utils, which is not part of this
  model. Each level is a `seq` of nodes. A node's links are abstracted to
  three states: never set, self-linked, or linked into a list.
- InitRegistry.Registry.Register requires that the node is not linked yet.
  A second `xf_init()` in REGISTRY mode re-runs the wrappers on nodes that are
  already linked, and what happens then depends on the unseen
  `xf_list_add_tail`. The model claims nothing about repeated runs.
- InitRegistry.Registry.ExplicitCallRegistry requires a manifest that names
  each initialiser at most once (`ManifestWellFormed`). The source compiles a
  manifest that lists an initialiser twice. The wrapper then runs twice and
  registers its already-linked static node again. What happens then depends
  on the unseen `xf_list_add_tail`, as for a second `xf_init()`.
- InitRegistry.Registry.RunLevels, InitRegistry.Registry.FromRegistry and,
  under REGISTRY and CONSTRUCTOR, XfInit.Init require every head to be set up
  (`HeadsReady`). Walking a head
  that was never set up is not modelled. That is the state
  `BeforeStaticInit` builds. It cannot arise before `xf_init()`: the static
  initialiser at src/registry/xf_init_registry.c:32-41 sets up all eight
  heads, and `Register` keeps them set up.
- The linker's work is left out: section placement, sorting sections by name,
  and the order of entries within one section. Sortedness (`SortedBySection`)
  and the marker placement (`WellPlaced`) are explicit preconditions of the
  ordering lemmas, not derived. The array is an input of `SectionImage`.
- The GCC attributes `__used`, `__section` and `__constructor` are left out.
  So is the platform's order of running constructors across translation
  units: under CONSTRUCTOR, the registrations are whatever sequence of
  `Register` calls happened before `xf_init()`.
- RegistryDefs.RegistryWrapperIsPlain does not model a `__constructor` macro
  already defined elsewhere. Such a definition switches the selection at
  src/registry/xf_init_registry.h:28 off.
- Initialiser bodies are left out. Each function is an opaque `FuncId` with a
  `behaviour` parameter giving its result. The result is computed and then
  dropped, as the source only logs it.
- `XF_LOGD` logging and the function-name strings' use in the log are left
  out.
- The `xf_init_preinit_ops_t` hooks and the example programs are left out,
  because `xf_init` never calls the hooks.
- The legacy headers are left out: `xf_init_impl_by_*.h`, and
  `xf_init_types.h` with its six-level enumeration and `xf_init_list_register_*`
  prototypes. `xf_init.h` does not include them.
- Nothing in the modelled sources is concurrent, so there is no locking to model.

Two points where other files of the repository suggest more than xf_init's
own sources (src/xf_init.c, src/xf_init.h, src/xf_init_config_internal.h,
src/registry/ and src/section/) do. The model follows those sources in both:

- `src/xf_init_types.h:102-115` declares a legacy `xf_init_preinit_ops_t`
  hook table, and `examples/main.c:63` calls `xf_init(&preinit_ops)`. But
  `xf_init` (src/xf_init.c:30-42) takes no arguments and calls no hook.
- src/xf_init_config_internal.h:31-37 does not limit the method to 0..2. It
  only checks for a missing manifest path under REGISTRY. Every other value
  is accepted, and it then selects no backend and no export macro.
