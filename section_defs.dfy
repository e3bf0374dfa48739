/**
 * The array backend's export macro: every XF_INIT_EXPORT_SECTION_<L> places a
 * const descriptor in the input section ".xf_auto_init." followed by the
 * level's one-digit string, and the two markers sit at "0" and "9". The
 * linker is expected to sort these sections by name, which is what makes
 * the array come out in level order.
 */
module SectionDefs {
  import opened Options
  import opened InitLevels

  /** The common prefix of every section name the backend uses. */
  const SectionPrefix: string := ".xf_auto_init."

  /** The level strings of the start and end markers. */
  const StartLevelString: string := "0"
  const EndLevelString: string := "9"

  /** The level string each XF_INIT_EXPORT_SECTION_<L> passes, SETUP "1" up to APP "8". */
  function LevelString(l: Level): (s: string)
    ensures |s| == 1 && '1' <= s[0] <= '8'
    ensures s[0] as int == '1' as int + Ordinal(l)
  {
    match l
    case Setup => "1"
    case Board => "2"
    case Prev => "3"
    case Cleanup => "4"
    case Device => "5"
    case Component => "6"
    case Env => "7"
    case App => "8"
  }

  /** The section attribute, `".xf_auto_init." level`: the string literals are concatenated. */
  function SectionName(level: string): (name: string)
    ensures |name| == |SectionPrefix| + |level|
    ensures name[..|SectionPrefix|] == SectionPrefix && name[|SectionPrefix|..] == level
  {
    SectionPrefix + level
  }

  /** The section of a level's entries. */
  function LevelSection(l: Level): string
  {
    SectionName(LevelString(l))
  }

  /** The sections of the two markers. */
  function StartSection(): string
  {
    SectionName(StartLevelString)
  }

  function EndSection(): string
  {
    SectionName(EndLevelString)
  }

  /** Strict lexicographic order on names, character by character; a proper prefix comes first. */
  predicate LexLess(a: string, b: string)
    decreases |a|
  {
    if |a| == 0 then |b| > 0
    else if |b| == 0 then false
    else if a[0] != b[0] then a[0] < b[0]
    else LexLess(a[1..], b[1..])
  }

  /** A common prefix does not change the order of two names. */
  lemma {:induction false} LexLessCommonPrefix(p: string, a: string, b: string)
    ensures LexLess(p + a, p + b) <==> LexLess(a, b)
    decreases |p|
  {
    if |p| > 0 {
      assert (p + a)[0] == (p + b)[0];
      assert (p + a)[1..] == p[1..] + a;
      assert (p + b)[1..] == p[1..] + b;
      LexLessCommonPrefix(p[1..], a, b);
    } else {
      assert p + a == a && p + b == b;
    }
  }

  /** Two one-character names compare as their characters do. */
  lemma LexLessSingle(a: string, b: string)
    requires |a| == 1 && |b| == 1
    ensures LexLess(a, b) <==> a[0] < b[0]
  {
    assert a[1..] == [] && b[1..] == [];
  }

  /** Names that differ only after the prefix compare as their level strings do. */
  lemma SectionOrder(x: string, y: string)
    requires |x| == 1 && |y| == 1
    ensures LexLess(SectionName(x), SectionName(y)) <==> x[0] < y[0]
  {
    LexLessCommonPrefix(SectionPrefix, x, y);
    LexLessSingle(x, y);
  }

  /**
   * The level-to-section mapping is strictly monotone in both directions:
   * one level's section sorts before another's exactly when its level comes first.
   */
  lemma SectionOrderIsLevelOrder(a: Level, b: Level)
    ensures LexLess(LevelSection(a), LevelSection(b)) <==> Ordinal(a) < Ordinal(b)
  {
    SectionOrder(LevelString(a), LevelString(b));
  }

  /** The start marker's section sorts before every level's, the end marker's after. */
  lemma MarkersBracketLevels(l: Level)
    ensures LexLess(StartSection(), LevelSection(l))
    ensures LexLess(LevelSection(l), EndSection())
    ensures LexLess(StartSection(), EndSection())
  {
    SectionOrder(StartLevelString, LevelString(l));
    SectionOrder(LevelString(l), EndLevelString);
    SectionOrder(StartLevelString, EndLevelString);
  }

  /** Reading a level back from a section name; markers and foreign names have none. */
  function SectionLevel(name: string): (r: Option<Level>)
    ensures r.Some? ==> name == LevelSection(r.value)
  {
    if |name| == |SectionPrefix| + 1 && name[..|SectionPrefix|] == SectionPrefix
       && '1' <= name[|SectionPrefix|] <= '8'
    then
      var l := LevelAt(name[|SectionPrefix|] as int - '1' as int);
      assert name == SectionPrefix + [name[|SectionPrefix|]];
      Some(l)
    else None
  }

  /** Every level's section reads back as that level, and neither marker reads as a level. */
  lemma SectionLevelRoundTrip(l: Level)
    ensures SectionLevel(LevelSection(l)) == Some(l)
    ensures SectionLevel(StartSection()).None? && SectionLevel(EndSection()).None?
  {
    var name := LevelSection(l);
    assert name[|SectionPrefix|] == LevelString(l)[0];
    var r := SectionLevel(name);
    assert r.Some?;
    assert Ordinal(r.value) == Ordinal(l);
    LevelAtOrdinal(r.value);
    LevelAtOrdinal(l);
    assert StartSection()[|SectionPrefix|] == '0';
    assert EndSection()[|SectionPrefix|] == '9';
  }

  /** One descriptor as the linker places it: the section it was put in and its contents. */
  datatype Placed = Placed(symbol: string, section: string, desc: Desc)

  /**
   * XF_INIT_EXPORT_SECTION(function, level): a const descriptor named
   * `__xf_init_##function`, in section ".xf_auto_init." level.
   */
  function ExportSection(ident: string, func: Option<FuncId>, level: string): (p: Placed)
    ensures p.symbol == "__xf_init_" + ident && p.section == SectionName(level)
    ensures p.desc.funcName == ident && p.desc.func == func
  {
    Placed("__xf_init_" + ident, SectionName(level), ExportedDesc(ident, func))
  }

  /** XF_INIT_EXPORT_SECTION_<L>(function): the export at that level's string. */
  function ExportSectionLevel(l: Level, ident: string, func: Option<FuncId>): (p: Placed)
    ensures SectionLevel(p.section) == Some(l)
    ensures p.desc.funcName == ident && p.desc.func == func
  {
    SectionLevelRoundTrip(l);
    ExportSection(ident, func, LevelString(l))
  }

  /**
   * The two markers the backend itself exports, for its functions start and
   * end: each sits alone at its marker section, which reads as no level.
   */
  function StartMarker(startFn: FuncId): (p: Placed)
    ensures p.section == StartSection() && SectionLevel(p.section).None?
    ensures p.symbol == "__xf_init_start" && p.desc.func == Some(startFn)
  {
    SectionLevelRoundTrip(Setup);
    ExportSection("start", Some(startFn), StartLevelString)
  }

  function EndMarker(endFn: FuncId): (p: Placed)
    ensures p.section == EndSection() && SectionLevel(p.section).None?
    ensures p.symbol == "__xf_init_end" && p.desc.func == Some(endFn)
  {
    SectionLevelRoundTrip(Setup);
    ExportSection("end", Some(endFn), EndLevelString)
  }

  /** The linker's output order: no entry is followed by one whose section sorts before it. */
  predicate SortedBySection(layout: seq<Placed>)
  {
    forall i, j | 0 <= i < j < |layout| :: !LexLess(layout[j].section, layout[i].section)
  }

  /**
   * In a layout sorted by section, entries of two levels appear in level order:
   * an earlier entry's level never comes after a later entry's.
   */
  lemma SortedLayoutIsLevelOrdered(layout: seq<Placed>, i: nat, j: nat)
    requires SortedBySection(layout)
    requires i < j < |layout|
    requires SectionLevel(layout[i].section).Some? && SectionLevel(layout[j].section).Some?
    ensures Ordinal(SectionLevel(layout[i].section).value) <= Ordinal(SectionLevel(layout[j].section).value)
  {
    var a, b := SectionLevel(layout[i].section).value, SectionLevel(layout[j].section).value;
    SectionOrderIsLevelOrder(b, a);
  }

  /**
   * A layout as the backend expects it: every entry is in a level section or is
   * one of the markers, and the markers are the only entries in their sections.
   */
  predicate WellPlaced(layout: seq<Placed>, s: nat, e: nat)
  {
    && s < |layout| && e < |layout|
    && (forall i | 0 <= i < |layout| :: layout[i].section == StartSection() <==> i == s)
    && (forall i | 0 <= i < |layout| :: layout[i].section == EndSection() <==> i == e)
    && (forall i | 0 <= i < |layout| && i != s && i != e :: SectionLevel(layout[i].section).Some?)
  }

  /**
   * Sorting by section brackets the level entries with the markers: an index
   * lies strictly between the markers exactly when its entry is a level entry.
   */
  lemma MarkersEncloseLevelEntries(layout: seq<Placed>, s: nat, e: nat, i: nat)
    requires SortedBySection(layout) && WellPlaced(layout, s, e)
    requires i < |layout|
    ensures s < e
    ensures s < i < e <==> SectionLevel(layout[i].section).Some?
  {
    MarkersBracketLevels(Setup);
    SectionLevelRoundTrip(Setup);
    assert StartSection()[|SectionPrefix|] != EndSection()[|SectionPrefix|];
    assert layout[s].section == StartSection() && layout[e].section == EndSection();
    if e <= s {
      assert false;
    }
    if SectionLevel(layout[i].section).Some? {
      var li := SectionLevel(layout[i].section).value;
      MarkersBracketLevels(li);
      if i <= s {
        assert false;
      }
      if e <= i {
        assert false;
      }
    }
  }
}
