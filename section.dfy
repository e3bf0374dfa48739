/**
 * The array backend: the descriptors the linker packed into one contiguous
 * region, bracketed by the start and end markers, and the loop of
 * xf_init_from_section that runs everything strictly between them.
 */
module InitSection {
  import opened Options
  import opened InitLevels
  import opened SectionDefs
  import opened Sequences

  /** The descriptors a walk over indices lo..hi-1 invokes, in array order; NULL functions are skipped. */
  function InvokedBetween(ds: seq<Desc>, lo: nat, hi: nat): seq<Desc>
    requires hi <= |ds|
    decreases hi
  {
    if hi <= lo then []
    else InvokedBetween(ds, lo, hi - 1) + (if ds[hi - 1].func.Some? then [ds[hi - 1]] else [])
  }

  /** How many of the indices lo..hi-1 hold descriptor d. */
  function CountBetween(ds: seq<Desc>, lo: nat, hi: nat, d: Desc): nat
    requires hi <= |ds|
    decreases hi
  {
    if hi <= lo then 0
    else CountBetween(ds, lo, hi - 1, d) + (if ds[hi - 1] == d then 1 else 0)
  }

  /**
   * A descriptor is invoked iff it has a function and sits at one of the
   * walked indices: nothing outside lo..hi-1 is reached.
   */
  lemma {:induction false} InvokedBetweenMembership(ds: seq<Desc>, lo: nat, hi: nat, d: Desc)
    requires hi <= |ds|
    ensures d in InvokedBetween(ds, lo, hi) <==> d.func.Some? && exists i | lo <= i < hi :: ds[i] == d
    decreases hi
  {
    if hi > lo {
      InvokedBetweenMembership(ds, lo, hi - 1, d);
      if ds[hi - 1] == d && d.func.Some? {
        assert d in InvokedBetween(ds, lo, hi);
      }
    }
  }

  /**
   * Each walked entry with a function is invoked once per occurrence, and one
   * with a NULL function never: no entry is visited twice.
   */
  lemma {:induction false} InvokedBetweenCount(ds: seq<Desc>, lo: nat, hi: nat, d: Desc)
    requires hi <= |ds|
    ensures multiset(InvokedBetween(ds, lo, hi))[d] == if d.func.Some? then CountBetween(ds, lo, hi, d) else 0
    decreases hi
  {
    if hi > lo {
      InvokedBetweenCount(ds, lo, hi - 1, d);
      var prev, last := InvokedBetween(ds, lo, hi - 1), if ds[hi - 1].func.Some? then [ds[hi - 1]] else [];
      assert InvokedBetween(ds, lo, hi) == prev + last;
      MultisetOfAppend(prev, last, d);
    }
  }

  /** The walk is in array order: the entries below mid come first. */
  lemma {:induction false} InvokedBetweenSplit(ds: seq<Desc>, lo: nat, mid: nat, hi: nat)
    requires lo <= mid <= hi <= |ds|
    ensures InvokedBetween(ds, lo, hi) == InvokedBetween(ds, lo, mid) + InvokedBetween(ds, mid, hi)
    decreases hi
  {
    if hi > mid {
      InvokedBetweenSplit(ds, lo, mid, hi - 1);
    }
  }

  /** Nothing is invoked exactly when no walked entry has a function; in particular an empty interior runs nothing. */
  lemma {:induction false} NothingInvoked(ds: seq<Desc>, lo: nat, hi: nat)
    requires hi <= |ds|
    ensures InvokedBetween(ds, lo, hi) == [] <==> forall i | lo <= i < hi :: ds[i].func.None?
    decreases hi
  {
    if hi > lo {
      NothingInvoked(ds, lo, hi - 1);
    }
  }

  /** The descriptors of a linked layout, in placement order. */
  function Descs(layout: seq<Placed>): (ds: seq<Desc>)
    ensures |ds| == |layout|
    ensures forall i | 0 <= i < |layout| :: ds[i] == layout[i].desc
  {
    seq(|layout|, i requires 0 <= i < |layout| => layout[i].desc)
  }

  /** A placed descriptor with its section read back as a level's enumerator value (None for the markers). */
  datatype Entry = Entry(rank: Option<nat>, desc: Desc)

  /** The level enumerator value a section name stands for, if it is a level's section. */
  function Rank(section: string): (r: Option<nat>)
    ensures r.Some? <==> SectionLevel(section).Some?
    ensures r.Some? ==> r.value == Ordinal(SectionLevel(section).value) < LevelCount
  {
    match SectionLevel(section)
    case None => None
    case Some(l) => Some(Ordinal(l))
  }

  /** One placed descriptor, classified by level. */
  function EntryOf(p: Placed): Entry
  {
    Entry(Rank(p.section), p.desc)
  }

  /** The first n placed descriptors, classified by level. */
  function ClassifyUpTo(layout: seq<Placed>, n: nat): (es: seq<Entry>)
    requires n <= |layout|
    ensures |es| == n
  {
    if n == 0 then [] else ClassifyUpTo(layout, n - 1) + [EntryOf(layout[n - 1])]
  }

  /** The whole layout, classified by level. */
  function Classify(layout: seq<Placed>): (es: seq<Entry>)
    ensures |es| == |layout|
  {
    ClassifyUpTo(layout, |layout|)
  }

  /** Classification is pointwise. */
  lemma {:induction false} ClassifyAt(layout: seq<Placed>, n: nat, i: nat)
    requires i < n <= |layout|
    ensures ClassifyUpTo(layout, n)[i] == EntryOf(layout[i])
  {
    if i < n - 1 {
      ClassifyAt(layout, n - 1, i);
    }
  }

  /** The classified entries carry the layout's descriptors. */
  lemma ClassifiedDescs(layout: seq<Placed>)
    ensures EntryDescs(Classify(layout)) == Descs(layout)
  {
    forall i | 0 <= i < |layout|
      ensures EntryDescs(Classify(layout))[i] == Descs(layout)[i]
    {
      ClassifyAt(layout, |layout|, i);
    }
  }

  /** The entries' descriptors, in order. */
  function EntryDescs(es: seq<Entry>): (ds: seq<Desc>)
    ensures |ds| == |es|
    ensures forall i | 0 <= i < |es| :: ds[i] == es[i].desc
  {
    seq(|es|, i requires 0 <= i < |es| => es[i].desc)
  }

  /**
   * Indices lo..hi-1 hold level entries in non-decreasing level order, as a
   * sort by section name leaves them: each entry's level is at most the next one's.
   */
  predicate RanksAscend(es: seq<Entry>, lo: nat, hi: nat)
    requires hi <= |es|
    decreases hi
  {
    if hi <= lo then true
    else
      && RanksAscend(es, lo, hi - 1)
      && es[hi - 1].rank.Some? && es[hi - 1].rank.value < LevelCount
      && (hi - 1 == lo || (es[hi - 2].rank.Some? && es[hi - 2].rank.value <= es[hi - 1].rank.value))
  }

  /** In an ascending stretch, no entry's level is above the last one's. */
  lemma {:induction false} AscendBelowLast(es: seq<Entry>, lo: nat, hi: nat)
    requires lo < hi <= |es| && RanksAscend(es, lo, hi)
    ensures forall i | lo <= i < hi :: es[i].rank.Some? && es[i].rank.value <= es[hi - 1].rank.value
    decreases hi
  {
    if hi - 1 > lo {
      AscendBelowLast(es, lo, hi - 1);
    }
  }

  /** The descriptors with a function placed at the level of value k between indices lo and hi-1, in placement order. */
  function LevelRun(es: seq<Entry>, lo: nat, hi: nat, k: nat): seq<Desc>
    requires hi <= |es|
    decreases hi
  {
    if hi <= lo then []
    else LevelRun(es, lo, hi - 1, k)
         + (if es[hi - 1].rank == Some(k) && es[hi - 1].desc.func.Some? then [es[hi - 1].desc] else [])
  }

  /** The level runs of the levels of value below n between lo and hi-1, concatenated in level order. */
  function ByLevels(es: seq<Entry>, lo: nat, hi: nat, n: nat): seq<Desc>
    requires hi <= |es|
  {
    if n == 0 then [] else ByLevels(es, lo, hi, n - 1) + LevelRun(es, lo, hi, n - 1)
  }

  /** A level with no entries in the range has an empty run. */
  lemma {:induction false} LevelRunEmpty(es: seq<Entry>, lo: nat, hi: nat, k: nat)
    requires hi <= |es|
    requires forall i | lo <= i < hi :: es[i].rank != Some(k)
    ensures LevelRun(es, lo, hi, k) == []
    decreases hi
  {
    if hi > lo {
      LevelRunEmpty(es, lo, hi - 1, k);
    }
  }

  /**
   * One more entry es[hi-1], at level value m, none of the earlier ones above m:
   * the runs of the levels below n grow by it exactly when m is below n.
   */
  lemma {:induction false} ByLevelsStep(es: seq<Entry>, lo: nat, hi: nat, n: nat, m: nat)
    requires lo < hi <= |es|
    requires es[hi - 1].rank == Some(m)
    requires forall i | lo <= i < hi - 1 :: es[i].rank.Some? && es[i].rank.value <= m
    ensures ByLevels(es, lo, hi, n)
         == ByLevels(es, lo, hi - 1, n)
            + (if m < n && es[hi - 1].desc.func.Some? then [es[hi - 1].desc] else [])
  {
    if n > 0 {
      var k := n - 1;
      var tail := if es[hi - 1].desc.func.Some? then [es[hi - 1].desc] else [];
      var t1 := if m < k then tail else [];
      var u := if m == k then tail else [];
      var t2 := if m < n then tail else [];
      ByLevelsStep(es, lo, hi, k, m);
      assert LevelRun(es, lo, hi, k) == LevelRun(es, lo, hi - 1, k) + u;
      if m < k {
        LevelRunEmpty(es, lo, hi - 1, k);
      }
      Regroup(ByLevels(es, lo, hi - 1, k), t1, LevelRun(es, lo, hi - 1, k), u, t2);
    }
  }

  /** With no entries in range, every level run is empty. */
  lemma {:induction false} ByLevelsEmpty(es: seq<Entry>, lo: nat, hi: nat, n: nat)
    requires hi <= lo && hi <= |es|
    ensures ByLevels(es, lo, hi, n) == []
  {
    if n > 0 {
      ByLevelsEmpty(es, lo, hi, n - 1);
    }
  }

  /**
   * The key theorem of the array backend: over a level-sorted stretch of
   * level entries, the walk invokes each level's entries (with a function) in
   * placement order, the levels one after another in level order.
   */
  lemma {:induction false} WalkIsLevelOrder(es: seq<Entry>, lo: nat, hi: nat)
    requires hi <= |es|
    requires RanksAscend(es, lo, hi)
    ensures InvokedBetween(EntryDescs(es), lo, hi) == ByLevels(es, lo, hi, LevelCount)
    decreases hi
  {
    if hi <= lo {
      ByLevelsEmpty(es, lo, hi, LevelCount);
    } else {
      WalkIsLevelOrder(es, lo, hi - 1);
      var m := es[hi - 1].rank.value;
      AscendBelowLast(es, lo, hi);
      ByLevelsStep(es, lo, hi, LevelCount, m);
      var ds := EntryDescs(es);
      assert InvokedBetween(ds, lo, hi) == InvokedBetween(ds, lo, hi - 1) + (if ds[hi - 1].func.Some? then [ds[hi - 1]] else []);
    }
  }

  /** A level's run over a range is its run below mid followed by its run from mid on. */
  lemma {:induction false} LevelRunSplit(es: seq<Entry>, lo: nat, mid: nat, hi: nat, k: nat)
    requires lo <= mid <= hi <= |es|
    ensures LevelRun(es, lo, hi, k) == LevelRun(es, lo, mid, k) + LevelRun(es, mid, hi, k)
    decreases hi
  {
    if hi > mid {
      LevelRunSplit(es, lo, mid, hi - 1, k);
      var x := if es[hi - 1].rank == Some(k) && es[hi - 1].desc.func.Some? then [es[hi - 1].desc] else [];
      assert LevelRun(es, lo, hi, k) == LevelRun(es, lo, hi - 1, k) + x;
      assert LevelRun(es, mid, hi, k) == LevelRun(es, mid, hi - 1, k) + x;
      AppendAssociative(LevelRun(es, lo, mid, k), LevelRun(es, mid, hi - 1, k), x);
    } else {
      assert LevelRun(es, mid, hi, k) == [];
    }
  }

  /** If no level entry lies outside lo..hi-1, each level's run over that range is its run over all entries. */
  lemma {:induction false} LevelRunWhole(es: seq<Entry>, lo: nat, hi: nat, k: nat)
    requires lo <= hi <= |es|
    requires forall i | 0 <= i < |es| && (i < lo || hi <= i) :: es[i].rank.None?
    ensures LevelRun(es, lo, hi, k) == LevelRun(es, 0, |es|, k)
  {
    LevelRunSplit(es, 0, lo, |es|, k);
    LevelRunSplit(es, lo, hi, |es|, k);
    LevelRunEmpty(es, 0, lo, k);
    LevelRunEmpty(es, hi, |es|, k);
  }

  /** The same for the concatenated runs. */
  lemma {:induction false} ByLevelsWhole(es: seq<Entry>, lo: nat, hi: nat, n: nat)
    requires lo <= hi <= |es|
    requires forall i | 0 <= i < |es| && (i < lo || hi <= i) :: es[i].rank.None?
    ensures ByLevels(es, lo, hi, n) == ByLevels(es, 0, |es|, n)
  {
    if n > 0 {
      ByLevelsWhole(es, lo, hi, n - 1);
      LevelRunWhole(es, lo, hi, n - 1);
    }
  }

  /** Level entries in non-decreasing level order, wherever they are. */
  predicate RankSorted(es: seq<Entry>)
  {
    forall i, j | 0 <= i < j < |es| && es[i].rank.Some? && es[j].rank.Some? :: es[i].rank.value <= es[j].rank.value
  }

  /** A stretch of level entries of a rank-sorted sequence ascends. */
  lemma {:induction false} SortedAscends(es: seq<Entry>, lo: nat, hi: nat)
    requires RankSorted(es) && hi <= |es|
    requires forall i | lo <= i < hi :: es[i].rank.Some? && es[i].rank.value < LevelCount
    ensures RanksAscend(es, lo, hi)
    decreases hi
  {
    if hi > lo {
      SortedAscends(es, lo, hi - 1);
    }
  }

  /**
   * What the marker placement gives once the layout is sorted and classified:
   * the level entries are exactly the entries strictly between the markers.
   */
  lemma MarkersShape(layout: seq<Placed>, s: nat, e: nat)
    requires SortedBySection(layout) && WellPlaced(layout, s, e)
    ensures s < e
    ensures forall i | 0 <= i < |layout| :: s < i < e <==> Classify(layout)[i].rank.Some?
    ensures forall i | 0 <= i < |layout| && Classify(layout)[i].rank.Some? :: Classify(layout)[i].rank.value < LevelCount
  {
    MarkersEncloseLevelEntries(layout, s, e, s);
    forall i | 0 <= i < |layout|
      ensures s < i < e <==> Classify(layout)[i].rank.Some?
      ensures Classify(layout)[i].rank.Some? ==> Classify(layout)[i].rank.value < LevelCount
    {
      MarkersEncloseLevelEntries(layout, s, e, i);
      ClassifyAt(layout, |layout|, i);
    }
  }

  /** What sorting by section name gives once the layout is classified: level entries in level order. */
  lemma SortedShape(layout: seq<Placed>)
    requires SortedBySection(layout)
    ensures RankSorted(Classify(layout))
  {
    var es := Classify(layout);
    forall i, j | 0 <= i < j < |es| && es[i].rank.Some? && es[j].rank.Some?
      ensures es[i].rank.value <= es[j].rank.value
    {
      ClassifyAt(layout, |layout|, i);
      ClassifyAt(layout, |layout|, j);
      SortedLayoutIsLevelOrdered(layout, i, j);
    }
  }

  /** The walk from s+1 to e over classified entries whose level entries all lie strictly between s and e. */
  lemma EntriesDispatch(es: seq<Entry>, s: nat, e: nat)
    requires s < e < |es| && RanksAscend(es, s + 1, e)
    requires forall i | 0 <= i < |es| :: s < i < e <==> es[i].rank.Some?
    ensures InvokedBetween(EntryDescs(es), s + 1, e) == ByLevels(es, 0, |es|, LevelCount)
  {
    WalkIsLevelOrder(es, s + 1, e);
    ByLevelsWhole(es, s + 1, e, LevelCount);
  }

  /**
   * Dispatching a sorted, well-placed image: the interior walk invokes every
   * level's entries with a function, level by level in level order and each
   * level in placement order, and nothing else; the markers are not invoked.
   */
  lemma SectionDispatchIsLevelOrder(layout: seq<Placed>, s: nat, e: nat)
    requires SortedBySection(layout) && WellPlaced(layout, s, e)
    ensures s < e
    ensures InvokedBetween(Descs(layout), s + 1, e) == ByLevels(Classify(layout), 0, |layout|, LevelCount)
  {
    MarkersShape(layout, s, e);
    SortedShape(layout);
    SortedAscends(Classify(layout), s + 1, e);
    EntriesDispatch(Classify(layout), s, e);
    ClassifiedDescs(layout);
  }

  /** The linked image: the packed descriptor array and the positions of the two markers in it. */
  class SectionImage {
    const region: array<Desc>
    /** The index of `__xf_init_start` and of `__xf_init_end`. */
    const start: nat
    const end: nat
    /** What the linker placed at each index, with its section. */
    ghost const layout: seq<Placed>
    /** The descriptors invoked so far, in invocation order. */
    ghost var trace: seq<Desc>

    ghost predicate Valid()
      reads region
    {
      && region.Length == |layout|
      && start < region.Length && end < region.Length
      && region[..] == Descs(layout)
    }

    /** The image of a layout whose markers are at s and e. */
    constructor (layout: seq<Placed>, s: nat, e: nat)
      requires s < |layout| && e < |layout|
      ensures Valid() && fresh(region)
      ensures this.layout == layout && start == s && end == e && trace == []
    {
      region := new Desc[|layout|](i requires 0 <= i < |layout| => layout[i].desc);
      this.layout := layout;
      start := s;
      end := e;
      trace := [];
      new;
      assert region[..] == Descs(layout);
    }

    /**
     * xf_init_from_section: from the entry after the start marker up to, not
     * including, the end marker, call every non-NULL function and log its
     * result, whatever it is.
     */
    method FromSection(behaviour: FuncId -> int)
      requires start < region.Length && end < region.Length
      modifies this`trace
      ensures trace == old(trace) + InvokedBetween(region[..], start + 1, end)
    {
      ghost var ds := region[..];
      var i := start + 1;
      while i < end
        invariant start + 1 <= i <= region.Length
        invariant i <= end || i == start + 1
        invariant trace == old(trace) + InvokedBetween(ds, start + 1, i)
      {
        var d := region[i];
        assert d == ds[i];
        if d.func.Some? {
          var result := behaviour(d.func.value);
          trace := trace + [d];
        }
        i := i + 1;
      }
      assert region[..] == ds;
    }

    /** For a sorted, well-placed image, the loop's walk is the level-by-level dispatch. */
    lemma WalkIsLevelOrdered()
      requires Valid() && SortedBySection(layout) && WellPlaced(layout, start, end)
      ensures start < end
      ensures InvokedBetween(region[..], start + 1, end) == ByLevels(Classify(layout), 0, |layout|, LevelCount)
    {
      SectionDispatchIsLevelOrder(layout, start, end);
    }
  }
}
