/**
 * The level taxonomy and the initialiser descriptor shared by both backends:
 * the enumeration xf_init_registry_type_t and the structs
 * xf_init_registry_desc_t / xf_init_section_desc_t, which have the same shape.
 */
module InitLevels {
  import opened Options

  /** The eight initialisation stages, in enumeration order. */
  datatype Level = Setup | Board | Prev | Cleanup | Device | Component | Env | App

  /** XF_INIT_REGISTRY_TYPE_MAX: one past the last real level. */
  const LevelCount: nat := 8

  /** The enumerator value of a level (SETUP = 0x00, then consecutive). */
  function Ordinal(l: Level): (n: nat)
    ensures n < LevelCount
  {
    match l
    case Setup => 0
    case Board => 1
    case Prev => 2
    case Cleanup => 3
    case Device => 4
    case Component => 5
    case Env => 6
    case App => 7
  }

  /** The level whose enumerator value is n. */
  function LevelAt(n: nat): (l: Level)
    requires n < LevelCount
    ensures Ordinal(l) == n
  {
    if n == 0 then Setup
    else if n == 1 then Board
    else if n == 2 then Prev
    else if n == 3 then Cleanup
    else if n == 4 then Device
    else if n == 5 then Component
    else if n == 6 then Env
    else App
  }

  /** Enumerator values identify levels: the enum and 0..7 are in bijection. */
  lemma LevelAtOrdinal(l: Level)
    ensures LevelAt(Ordinal(l)) == l
  {
    match l
    case Setup =>
    case Board =>
    case Prev =>
    case Cleanup =>
    case Device =>
    case Component =>
    case Env =>
    case App =>
  }

  /** The levels in the order the dispatch loop visits them, SETUP up to APP. */
  function AllLevels(): (ls: seq<Level>)
    ensures |ls| == LevelCount
    ensures forall i | 0 <= i < |ls| :: Ordinal(ls[i]) == i
  {
    [Setup, Board, Prev, Cleanup, Device, Component, Env, App]
  }

  /** Every level is in AllLevels exactly once and the list is strictly ascending. */
  lemma AllLevelsExactlyOnce(l: Level)
    ensures l in AllLevels()
    ensures forall i, j | 0 <= i < j < |AllLevels()| :: Ordinal(AllLevels()[i]) < Ordinal(AllLevels()[j])
    ensures forall i | 0 <= i < |AllLevels()| && AllLevels()[i] == l :: i == Ordinal(l)
  {
    assert AllLevels()[Ordinal(l)] == LevelAt(Ordinal(l));
    LevelAtOrdinal(l);
  }

  /** The address of an initialiser function, abstracted to an identity. */
  type FuncId = nat

  /**
   * An initialiser descriptor: the function pointer (None for NULL) and the
   * function's identifier as a string, kept for the diagnostic log line.
   */
  datatype Desc = Desc(func: Option<FuncId>, funcName: string)

  /** What both export macros store: `.func = (function)` and `.func_name = XSTR(function)`. */
  function ExportedDesc(ident: string, func: Option<FuncId>): (d: Desc)
    ensures d.funcName == ident && d.func == func
  {
    Desc(func, ident)
  }
}
