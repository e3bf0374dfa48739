/**
 * The list backend: eight per-level lists of registration nodes, the register
 * operation (lazy head initialisation, then tail append), the explicit
 * manifest pass and the level-by-level dispatch loop.
 */
module InitRegistry {
  import opened Options
  import opened InitLevels
  import opened RegistryDefs
  import RegistryRule
  import InitConfig
  import opened Sequences

  /** A level's list head: never set up (both links NULL), or a list of nodes, head to tail. */
  datatype ListHead = Uninitialised | Initialised(nodes: seq<DescNode>)

  /** The nodes of a head; a head that was never set up holds none. */
  function Members(h: ListHead): seq<DescNode>
  {
    match h
    case Uninitialised => []
    case Initialised(ns) => ns
  }

  /** The dispatch guard: the node has a descriptor and the descriptor a function. */
  predicate Runnable(n: DescNode)
  {
    n.pDesc.Some? && n.pDesc.value.func.Some?
  }

  /** The descriptors one level's traversal invokes, head to tail, skipping non-runnable nodes. */
  function Invoked(ns: seq<DescNode>): (r: seq<Desc>)
    ensures |r| <= |ns|
  {
    if ns == [] then []
    else Invoked(ns[..|ns| - 1]) + (if Runnable(ns[|ns| - 1]) then [ns[|ns| - 1].pDesc.value] else [])
  }

  /** One more node: the traversal grows by its descriptor if it is runnable. */
  lemma InvokedStep(ns: seq<DescNode>, j: nat)
    requires j < |ns|
    ensures Invoked(ns[..j + 1]) == Invoked(ns[..j]) + (if Runnable(ns[j]) then [ns[j].pDesc.value] else [])
  {
    assert ns[..j + 1][..j] == ns[..j];
  }

  /** The descriptors the dispatch of the first k levels invokes: each level's Invoked list, in level order. */
  function ScheduleUpTo(ls: seq<seq<DescNode>>, k: nat): seq<Desc>
    requires k <= |ls|
  {
    if k == 0 then [] else ScheduleUpTo(ls, k - 1) + Invoked(ls[k - 1])
  }

  /** The descriptors a dispatch of all levels invokes. */
  function Schedule(ls: seq<seq<DescNode>>): seq<Desc>
  {
    ScheduleUpTo(ls, |ls|)
  }

  /** How many nodes of a list point at descriptor d. */
  function Occurrences(ns: seq<DescNode>, d: Desc): nat
  {
    if ns == [] then 0
    else Occurrences(ns[..|ns| - 1], d) + (if ns[|ns| - 1].pDesc == Some(d) then 1 else 0)
  }

  lemma {:induction false} InvokedAppend(a: seq<DescNode>, b: seq<DescNode>)
    ensures Invoked(a + b) == Invoked(a) + Invoked(b)
    decreases |b|
  {
    if b == [] {
      assert a + b == a;
    } else {
      var b' := b[..|b| - 1];
      assert (a + b)[..|a + b| - 1] == a + b';
      InvokedAppend(a, b');
    }
  }

  /**
   * A descriptor is invoked iff some node of the list points at it and its
   * function is not NULL: null descriptors and null functions are skipped,
   * every other entry is reached.
   */
  lemma {:induction false} InvokedMembership(ns: seq<DescNode>, d: Desc)
    ensures d in Invoked(ns) <==> d.func.Some? && exists n | n in ns :: n.pDesc == Some(d)
  {
    if ns != [] {
      var ns' := ns[..|ns| - 1];
      InvokedMembership(ns', d);
      if exists n | n in ns' :: n.pDesc == Some(d) {
        var n :| n in ns' && n.pDesc == Some(d);
        assert n in ns;
      }
      if d.func.Some? && exists n | n in ns :: n.pDesc == Some(d) {
        var n :| n in ns && n.pDesc == Some(d);
        if n !in ns' {
          assert n == ns[|ns| - 1];
        }
      }
    }
  }

  /**
   * An entry with a non-NULL function is invoked exactly as often as nodes
   * pointing at it are listed (once per registration); one with a NULL
   * function never.
   */
  lemma {:induction false} InvokedCount(ns: seq<DescNode>, d: Desc)
    ensures d.func.Some? ==> multiset(Invoked(ns))[d] == Occurrences(ns, d)
    ensures d.func.None? ==> multiset(Invoked(ns))[d] == 0
  {
    if ns != [] {
      InvokedCount(ns[..|ns| - 1], d);
    }
  }

  /** The first k levels' schedule depends on those k levels only. */
  lemma {:induction false} ScheduleUpToPrefix(ls: seq<seq<DescNode>>, ms: seq<seq<DescNode>>, k: nat)
    requires k <= |ls| && k <= |ms|
    requires forall i | 0 <= i < k :: ls[i] == ms[i]
    ensures ScheduleUpTo(ls, k) == ScheduleUpTo(ms, k)
  {
    if k > 0 {
      ScheduleUpToPrefix(ls, ms, k - 1);
    }
  }

  /** The schedule of levels k..m-1 follows, as a block, the schedule of the levels below k. */
  lemma {:induction false} ScheduleUpToSplit(ls: seq<seq<DescNode>>, k: nat, m: nat)
    requires k <= m <= |ls|
    ensures ScheduleUpTo(ls, m) == ScheduleUpTo(ls, k) + ScheduleUpTo(ls[k..], m - k)
  {
    if m > k {
      ScheduleUpToSplit(ls, k, m - 1);
      assert ls[k..][m - 1 - k] == ls[m - 1];
    }
  }

  /** Dispatching a concatenation of level lists dispatches the first part, then the second. */
  lemma ScheduleAppend(a: seq<seq<DescNode>>, b: seq<seq<DescNode>>)
    ensures Schedule(a + b) == Schedule(a) + Schedule(b)
  {
    ScheduleUpToSplit(a + b, |a|, |a + b|);
    ScheduleUpToPrefix(a + b, a, |a|);
    assert (a + b)[|a|..] == b;
  }

  /**
   * Level order: everything from levels below k is invoked before level k's
   * entries, which come before everything from the levels above k.
   */
  lemma ScheduleSplit(ls: seq<seq<DescNode>>, k: nat)
    requires k < |ls|
    ensures Schedule(ls) == ScheduleUpTo(ls, k) + Invoked(ls[k]) + Schedule(ls[k + 1..])
  {
    ScheduleUpToSplit(ls, k + 1, |ls|);
  }

  /** Where level k's segment starts in the schedule. */
  function Offset(ls: seq<seq<DescNode>>, k: nat): nat
    requires k <= |ls|
  {
    |ScheduleUpTo(ls, k)|
  }

  /**
   * Level k's segment of the schedule is exactly that level's registration-order
   * list with non-runnable entries dropped, and segments follow level order.
   */
  lemma LevelSegment(ls: seq<seq<DescNode>>, k: nat)
    requires k < |ls|
    ensures Offset(ls, k) + |Invoked(ls[k])| == Offset(ls, k + 1) <= |Schedule(ls)|
    ensures Schedule(ls)[Offset(ls, k)..Offset(ls, k + 1)] == Invoked(ls[k])
  {
    ScheduleSplit(ls, k);
  }

  /** The key theorem for the eight levels, written out. */
  lemma ScheduleOfEightLevels(ls: seq<seq<DescNode>>)
    requires |ls| == LevelCount
    ensures Schedule(ls) == Invoked(ls[0]) + Invoked(ls[1]) + Invoked(ls[2]) + Invoked(ls[3])
                          + Invoked(ls[4]) + Invoked(ls[5]) + Invoked(ls[6]) + Invoked(ls[7])
  {
    var i0, i1, i2, i3 := Invoked(ls[0]), Invoked(ls[1]), Invoked(ls[2]), Invoked(ls[3]);
    var i4, i5, i6, i7 := Invoked(ls[4]), Invoked(ls[5]), Invoked(ls[6]), Invoked(ls[7]);
    assert ScheduleUpTo(ls, 1) == i0;
    assert ScheduleUpTo(ls, 2) == i0 + i1;
    assert ScheduleUpTo(ls, 3) == i0 + i1 + i2;
    assert ScheduleUpTo(ls, 4) == i0 + i1 + i2 + i3;
    assert ScheduleUpTo(ls, 5) == i0 + i1 + i2 + i3 + i4;
    assert ScheduleUpTo(ls, 6) == i0 + i1 + i2 + i3 + i4 + i5;
    assert ScheduleUpTo(ls, 7) == i0 + i1 + i2 + i3 + i4 + i5 + i6;
  }

  /** A descriptor is among the first m levels' invocations iff one of those levels invokes it. */
  lemma {:induction false} ScheduleUpToMembership(ls: seq<seq<DescNode>>, m: nat, d: Desc)
    requires m <= |ls|
    ensures d in ScheduleUpTo(ls, m) <==> exists k | 0 <= k < m :: d in Invoked(ls[k])
  {
    if m > 0 {
      ScheduleUpToMembership(ls, m - 1, d);
    }
  }

  /** A descriptor is dispatched iff some level lists a runnable node pointing at it. */
  lemma ScheduleMembership(ls: seq<seq<DescNode>>, d: Desc)
    ensures d in Schedule(ls) <==> exists k | 0 <= k < |ls| :: d in Invoked(ls[k])
  {
    ScheduleUpToMembership(ls, |ls|, d);
  }

  /**
   * Registering node n at level k inserts its descriptor (when runnable) at the
   * end of level k's segment and moves nothing else.
   */
  lemma ScheduleAfterRegister(ls: seq<seq<DescNode>>, k: nat, n: DescNode)
    requires k < |ls|
    ensures Schedule(ls[k := ls[k] + [n]]) == ScheduleUpTo(ls, k) + (Invoked(ls[k]) + Invoked([n])) + Schedule(ls[k + 1..])
  {
    var ls' := ls[k := ls[k] + [n]];
    assert Schedule(ls') == ScheduleUpTo(ls', k) + Invoked(ls'[k]) + Schedule(ls'[k + 1..]) by {
      ScheduleSplit(ls', k);
    }
    assert ScheduleUpTo(ls', k) == ScheduleUpTo(ls, k) by {
      ScheduleUpToPrefix(ls', ls, k);
    }
    assert ls'[k + 1..] == ls[k + 1..];
    assert Invoked(ls'[k]) == Invoked(ls[k]) + Invoked([n]) by {
      InvokedAppend(ls[k], [n]);
    }
  }

  /** A level list after a registration pass: one append per wrapper, in call order. */
  function RegisterAll(ls: seq<seq<DescNode>>, ws: seq<Wrapper>): (r: seq<seq<DescNode>>)
    requires |ls| == LevelCount
    ensures |r| == LevelCount
  {
    if ws == [] then ls
    else
      var prev := RegisterAll(ls, ws[..|ws| - 1]);
      var k := Ordinal(ws[|ws| - 1].level);
      prev[k := prev[k] + [ws[|ws| - 1].node]]
  }

  /** One more call of the pass appends one node at its wrapper's level. */
  lemma RegisterAllStep(ls: seq<seq<DescNode>>, ws: seq<Wrapper>, i: nat)
    requires |ls| == LevelCount && i < |ws|
    ensures RegisterAll(ls, ws[..i + 1])
         == RegisterAll(ls, ws[..i])[Ordinal(ws[i].level) := RegisterAll(ls, ws[..i])[Ordinal(ws[i].level)] + [ws[i].node]]
  {
    assert ws[..i + 1][..i] == ws[..i];
  }

  /** The nodes of the wrappers that register at enumerator value k, in order. */
  function NodesAtLevel(ws: seq<Wrapper>, k: nat): seq<DescNode>
  {
    if ws == [] then []
    else NodesAtLevel(ws[..|ws| - 1], k) + (if Ordinal(ws[|ws| - 1].level) == k then [ws[|ws| - 1].node] else [])
  }

  /**
   * After a registration pass each level list is the old list followed by that
   * level's nodes in call order: FIFO per level, other levels untouched.
   */
  lemma {:induction false} RegisterAllPerLevel(ls: seq<seq<DescNode>>, ws: seq<Wrapper>, k: nat)
    requires |ls| == LevelCount && k < LevelCount
    ensures RegisterAll(ls, ws)[k] == ls[k] + NodesAtLevel(ws, k)
  {
    if ws != [] {
      RegisterAllPerLevel(ls, ws[..|ws| - 1], k);
    }
  }

  /** The i-th wrapper's node is among the nodes registered at its own level. */
  lemma {:induction false} NodesAtLevelHas(ws: seq<Wrapper>, i: nat)
    requires i < |ws|
    ensures ws[i].node in NodesAtLevel(ws, Ordinal(ws[i].level))
    decreases |ws|
  {
    var k := Ordinal(ws[i].level);
    var init := ws[..|ws| - 1];
    if i < |ws| - 1 {
      assert init[i] == ws[i];
      NodesAtLevelHas(init, i);
    }
    assert NodesAtLevel(ws, k) == NodesAtLevel(init, k) + (if Ordinal(ws[|ws| - 1].level) == k then [ws[|ws| - 1].node] else []);
  }

  /**
   * A registered export with a function is dispatched: its descriptor is
   * invoked within its own level's segment, and so by the whole dispatch.
   */
  lemma RegisteredExportIsDispatched(ls: seq<seq<DescNode>>, ws: seq<Wrapper>, i: nat, e: RegistryExport)
    requires |ls| == LevelCount && i < |ws|
    requires Generates(e, ws[i]) && e.desc.func.Some?
    ensures e.desc in Invoked(RegisterAll(ls, ws)[Ordinal(e.level)])
    ensures e.desc in Schedule(RegisterAll(ls, ws))
  {
    var k := Ordinal(e.level);
    var r := RegisterAll(ls, ws);
    RegisterAllPerLevel(ls, ws, k);
    NodesAtLevelHas(ws, i);
    assert ws[i].node in r[k];
    InvokedMembership(r[k], e.desc);
    ScheduleMembership(r, e.desc);
  }

  /** The wrappers that the manifest's call pass runs, in manifest order. */
  function Registrations(manifest: seq<string>, wrappers: map<string, Wrapper>): (ws: seq<Wrapper>)
    requires forall f | f in manifest :: WrapperSymbol(f) in wrappers
    ensures |ws| == |manifest|
    ensures forall i | 0 <= i < |manifest| :: ws[i] == wrappers[WrapperSymbol(manifest[i])]
  {
    seq(|manifest|, i requires 0 <= i < |manifest| => wrappers[WrapperSymbol(manifest[i])])
  }

  /**
   * After the manifest pass, the export behind every manifest entry whose
   * function is not NULL is dispatched.
   */
  lemma ManifestExportIsDispatched(ls: seq<seq<DescNode>>, manifest: seq<string>, wrappers: map<string, Wrapper>, i: nat, e: RegistryExport)
    requires |ls| == LevelCount && i < |manifest|
    requires forall f | f in manifest :: WrapperSymbol(f) in wrappers
    requires Generates(e, wrappers[WrapperSymbol(manifest[i])]) && e.desc.func.Some?
    ensures e.desc in Schedule(RegisterAll(ls, Registrations(manifest, wrappers)))
  {
    RegisteredExportIsDispatched(ls, Registrations(manifest, wrappers), i, e);
  }

  /** The static nodes the manifest's wrappers register. */
  function ManifestNodes(manifest: seq<string>, wrappers: map<string, Wrapper>): set<DescNode>
  {
    set f | f in manifest && WrapperSymbol(f) in wrappers :: wrappers[WrapperSymbol(f)].node
  }

  /**
   * The link-time facts about a manifest: every entry has a wrapper (else the
   * program does not link), no entry is listed twice, and every wrapper is the
   * one its export generated under that symbol.
   */
  predicate ManifestWellFormed(manifest: seq<string>, wrappers: map<string, Wrapper>)
  {
    && (forall f | f in manifest :: WrapperSymbol(f) in wrappers)
    && (forall i, j | 0 <= i < j < |manifest| :: manifest[i] != manifest[j])
    && (forall s | s in wrappers :: GeneratedAs(s, wrappers[s]))
  }

  /** What the explicit pass needs: a well-formed manifest none of whose nodes is linked yet. */
  predicate ManifestReady(manifest: seq<string>, wrappers: map<string, Wrapper>)
    reads ManifestNodes(manifest, wrappers)
  {
    && ManifestWellFormed(manifest, wrappers)
    && (forall f | f in manifest :: wrappers[WrapperSymbol(f)].node.link != Linked)
  }

  lemma ManifestNodeOf(manifest: seq<string>, wrappers: map<string, Wrapper>, i: nat)
    requires forall f | f in manifest :: WrapperSymbol(f) in wrappers
    requires i < |manifest|
    ensures Registrations(manifest, wrappers)[i].node in ManifestNodes(manifest, wrappers)
  {
    assert manifest[i] in manifest;
  }

  /** Distinct manifest entries register distinct static nodes. */
  lemma ManifestNodesDistinct(manifest: seq<string>, wrappers: map<string, Wrapper>, i: nat, j: nat)
    requires ManifestWellFormed(manifest, wrappers)
    requires i < j < |manifest|
    ensures Registrations(manifest, wrappers)[i].node != Registrations(manifest, wrappers)[j].node
  {
    var si, sj := WrapperSymbol(manifest[i]), WrapperSymbol(manifest[j]);
    assert manifest[i] in manifest && manifest[j] in manifest;
    if si == sj {
      WrapperSymbolInjective(manifest[i], manifest[j]);
    }
    GeneratedNodesDistinct(si, sj, wrappers[si], wrappers[sj]);
  }

  /** The level lists as plain sequences. */
  function AllMembers(hs: seq<ListHead>): (ls: seq<seq<DescNode>>)
    ensures |ls| == |hs|
    ensures forall k | 0 <= k < |hs| :: ls[k] == Members(hs[k])
  {
    seq(|hs|, k requires 0 <= k < |hs| => Members(hs[k]))
  }

  /** Replacing one head changes that level's list and no other. */
  lemma AllMembersUpdate(hs: seq<ListHead>, k: nat, h: ListHead)
    requires k < |hs|
    ensures AllMembers(hs[k := h]) == AllMembers(hs)[k := Members(h)]
  {
  }

  /**
   * No node is listed twice, at one level or at two: a node embeds a single
   * list link, so it sits in at most one list, and there once.
   */
  ghost predicate ListedOnce(ls: seq<seq<DescNode>>)
  {
    forall k1, j1, k2, j2 |
      && 0 <= k1 < |ls| && 0 <= j1 < |ls[k1]| && 0 <= k2 < |ls| && 0 <= j2 < |ls[k2]|
      && ls[k1][j1] == ls[k2][j2]
      :: k1 == k2 && j1 == j2
  }

  /** Appending a node that no list holds yet keeps every node listed once. */
  lemma ListedOnceAppend(ls: seq<seq<DescNode>>, k: nat, n: DescNode)
    requires ListedOnce(ls) && k < |ls|
    requires forall m, j | 0 <= m < |ls| && 0 <= j < |ls[m]| :: ls[m][j] != n
    ensures ListedOnce(ls[k := ls[k] + [n]])
  {
    var ls' := ls[k := ls[k] + [n]];
    forall k1, j1, k2, j2 |
      && 0 <= k1 < |ls'| && 0 <= j1 < |ls'[k1]| && 0 <= k2 < |ls'| && 0 <= j2 < |ls'[k2]|
      && ls'[k1][j1] == ls'[k2][j2]
      ensures k1 == k2 && j1 == j2
    {
      var old1 := k1 != k || j1 < |ls[k]|;
      var old2 := k2 != k || j2 < |ls[k]|;
      if old1 {
        assert ls'[k1][j1] == ls[k1][j1];
      }
      if old2 {
        assert ls'[k2][j2] == ls[k2][j2];
      }
    }
  }

  /** The lists hold only nodes marked as threaded, each of them once. */
  ghost predicate Threaded(ls: seq<seq<DescNode>>, linked: set<DescNode>)
  {
    && (forall k, j | 0 <= k < |ls| && 0 <= j < |ls[k]| :: ls[k][j] in linked)
    && ListedOnce(ls)
  }

  /** Appending a node not threaded yet, and marking it, keeps the lists threaded. */
  lemma ThreadedAppend(ls: seq<seq<DescNode>>, linked: set<DescNode>, k: nat, n: DescNode)
    requires Threaded(ls, linked) && k < |ls| && n !in linked
    ensures Threaded(ls[k := ls[k] + [n]], linked + {n})
  {
    ListedOnceAppend(ls, k, n);
    var ls' := ls[k := ls[k] + [n]];
    forall m, j | 0 <= m < |ls'| && 0 <= j < |ls'[m]|
      ensures ls'[m][j] in linked + {n}
    {
      if m != k || j < |ls[k]| {
        assert ls'[m][j] == ls[m][j];
      }
    }
  }

  /** A list none of whose nodes points at d has no occurrence of d. */
  lemma {:induction false} OccurrencesNone(ns: seq<DescNode>, d: Desc)
    requires forall i | 0 <= i < |ns| :: ns[i].pDesc != Some(d)
    ensures Occurrences(ns, d) == 0
  {
    if ns != [] {
      OccurrencesNone(ns[..|ns| - 1], d);
    }
  }

  /** A list in which only position j points at d has one occurrence of d. */
  lemma {:induction false} OccurrencesOne(ns: seq<DescNode>, j: nat, d: Desc)
    requires j < |ns| && ns[j].pDesc == Some(d)
    requires forall i | 0 <= i < |ns| && ns[i].pDesc == Some(d) :: i == j
    ensures Occurrences(ns, d) == 1
  {
    var ns' := ns[..|ns| - 1];
    if j == |ns| - 1 {
      OccurrencesNone(ns', d);
    } else {
      OccurrencesOne(ns', j, d);
    }
  }

  /** When only position j of level k points at d, level m holds d once if m is k, else never. */
  lemma LevelOccurrences(ls: seq<seq<DescNode>>, m: nat, k: nat, j: nat, d: Desc)
    requires m < |ls| && k < |ls| && j < |ls[k]| && ls[k][j].pDesc == Some(d)
    requires forall k2, j2 | 0 <= k2 < |ls| && 0 <= j2 < |ls[k2]| && ls[k2][j2].pDesc == Some(d) :: k2 == k && j2 == j
    ensures Occurrences(ls[m], d) == if m == k then 1 else 0
  {
    if m == k {
      OccurrencesOne(ls[k], j, d);
    } else {
      forall i | 0 <= i < |ls[m]|
        ensures ls[m][i].pDesc != Some(d)
      {
      }
      OccurrencesNone(ls[m], d);
    }
  }

  /** How many listed nodes of the first m levels point at d. */
  function OccurrencesUpTo(ls: seq<seq<DescNode>>, m: nat, d: Desc): nat
    requires m <= |ls|
  {
    if m == 0 then 0 else OccurrencesUpTo(ls, m - 1, d) + Occurrences(ls[m - 1], d)
  }

  /**
   * The dispatch of the first m levels invokes a descriptor with a non-NULL
   * function once per listed node pointing at it, and one with a NULL function never.
   */
  lemma {:induction false} ScheduleUpToCount(ls: seq<seq<DescNode>>, m: nat, d: Desc)
    requires m <= |ls|
    ensures d.func.Some? ==> multiset(ScheduleUpTo(ls, m))[d] == OccurrencesUpTo(ls, m, d)
    ensures d.func.None? ==> multiset(ScheduleUpTo(ls, m))[d] == 0
  {
    if m > 0 {
      var prev, last := ScheduleUpTo(ls, m - 1), Invoked(ls[m - 1]);
      assert ScheduleUpTo(ls, m) == prev + last;
      ScheduleUpToCount(ls, m - 1, d);
      MultisetOfAppend(prev, last, d);
      InvokedCount(ls[m - 1], d);
    }
  }

  /** When only position j of level k points at d, the first m levels hold d once if they include level k, else never. */
  lemma {:induction false} OccurrencesUpToOne(ls: seq<seq<DescNode>>, m: nat, k: nat, j: nat, d: Desc)
    requires m <= |ls| && k < |ls| && j < |ls[k]| && ls[k][j].pDesc == Some(d)
    requires forall k2, j2 | 0 <= k2 < |ls| && 0 <= j2 < |ls[k2]| && ls[k2][j2].pDesc == Some(d) :: k2 == k && j2 == j
    ensures OccurrencesUpTo(ls, m, d) == if k < m then 1 else 0
  {
    if m > 0 {
      OccurrencesUpToOne(ls, m - 1, k, j, d);
      LevelOccurrences(ls, m - 1, k, j, d);
    }
  }

  /**
   * In lists where every node is listed once, a runnable descriptor that
   * exactly one listed node points at is dispatched exactly once.
   */
  lemma DispatchedOnce(ls: seq<seq<DescNode>>, k: nat, j: nat, d: Desc)
    requires ListedOnce(ls)
    requires k < |ls| && j < |ls[k]| && ls[k][j].pDesc == Some(d) && d.func.Some?
    requires forall k2, j2 | 0 <= k2 < |ls| && 0 <= j2 < |ls[k2]| && ls[k2][j2].pDesc == Some(d) :: ls[k2][j2] == ls[k][j]
    ensures multiset(Schedule(ls))[d] == 1
  {
    forall k2, j2 | 0 <= k2 < |ls| && 0 <= j2 < |ls[k2]| && ls[k2][j2].pDesc == Some(d)
      ensures k2 == k && j2 == j
    {
    }
    OccurrencesUpToOne(ls, |ls|, k, j, d);
    ScheduleUpToCount(ls, |ls|, d);
  }

  /** The registry state: s_init_head, with a ghost record of what was invoked. */
  class Registry {
    const heads: array<ListHead>
    /** The nodes threaded into some level list. */
    ghost var linked: set<DescNode>
    /** The descriptors invoked so far, in invocation order. */
    ghost var trace: seq<Desc>

    ghost predicate Valid()
      reads this`linked, heads, linked
    {
      && heads.Length == LevelCount
      && Threaded(Lists(), linked)
      && (forall n | n in linked :: n.link == Linked)
    }

    /** The abstract value: each level's nodes, head to tail. */
    ghost function Lists(): (ls: seq<seq<DescNode>>)
      reads heads
      ensures |ls| == heads.Length
    {
      AllMembers(heads[..])
    }

    /** Every head has been set up, so the traversal may follow its links. */
    predicate HeadsReady()
      reads heads
    {
      forall k | 0 <= k < heads.Length :: heads[k].Initialised?
    }

    /** The static initialiser: eight self-linked, empty heads. */
    constructor ()
      ensures Valid() && HeadsReady() && fresh(heads)
      ensures Lists() == seq(LevelCount, _ => []) && linked == {} && trace == []
    {
      heads := new ListHead[LevelCount](_ => Initialised([]));
      linked := {};
      trace := [];
    }

    /**
     * The heads as they are when a load-time callback runs before static
     * initialisation: all links NULL, which register has to tolerate.
     */
    constructor BeforeStaticInit()
      ensures Valid() && fresh(heads)
      ensures forall k | 0 <= k < LevelCount :: heads[k] == Uninitialised
      ensures Lists() == seq(LevelCount, _ => []) && linked == {} && trace == []
    {
      heads := new ListHead[LevelCount](_ => Uninitialised);
      linked := {};
      trace := [];
    }

    /**
     * xf_init_registry_register_desc_node: set up the head if its links are
     * NULL, reset the node if its links are NULL, append the node at the tail.
     */
    method Register(node: DescNode, t: Level)
      requires Valid()
      requires node.link != Linked
      modifies this`linked, heads, node
      ensures Valid()
      ensures node.link == Linked && linked == old(linked) + {node}
      ensures Lists() == old(Lists())[Ordinal(t) := old(Lists())[Ordinal(t)] + [node]]
      ensures heads[Ordinal(t)] == Initialised(Members(old(heads[Ordinal(t)])) + [node])
      ensures forall j | 0 <= j < heads.Length && j != Ordinal(t) :: heads[j] == old(heads[j])
      ensures old(HeadsReady()) ==> HeadsReady()
    {
      var k := Ordinal(t);
      ghost var hs, ms := heads[..], Members(heads[k]);
      assert node !in linked;
      ghost var ls, ln := AllMembers(hs), linked;
      var head := heads[k];
      if head.Uninitialised? {
        head := Initialised([]);
      }
      if node.link == Detached {
        node.link := SelfLinked;
      }
      heads[k] := Initialised(head.nodes + [node]);
      node.link := Linked;
      linked := linked + {node};
      assert heads[..] == hs[k := Initialised(ms + [node])];
      AllMembersUpdate(hs, k, Initialised(ms + [node]));
      ThreadedAppend(ls, ln, k, node);
    }

    /**
     * A runnable descriptor that exactly one listed node points at is
     * dispatched exactly once by the level loop.
     */
    lemma ListedDescDispatchedOnce(k: nat, j: nat, d: Desc)
      requires Valid()
      requires k < LevelCount && j < |Lists()[k]| && Lists()[k][j].pDesc == Some(d) && d.func.Some?
      requires forall k2, j2 | 0 <= k2 < LevelCount && 0 <= j2 < |Lists()[k2]| && Lists()[k2][j2].pDesc == Some(d) ::
        Lists()[k2][j2] == Lists()[k][j]
      ensures multiset(Schedule(Lists()))[d] == 1
    {
      DispatchedOnce(Lists(), k, j, d);
    }

    /** The per-level loop of xf_init_from_registry. Return codes are dropped. */
    method RunLevels(behaviour: FuncId -> int)
      requires heads.Length == LevelCount && HeadsReady()
      modifies this`trace
      ensures trace == old(trace) + Schedule(Lists())
      ensures Lists() == old(Lists())
    {
      RunLists(AllMembers(heads[..]), behaviour);
    }

    /** The level loop: each level in level order, each list head to tail. */
    method RunLists(ls: seq<seq<DescNode>>, behaviour: FuncId -> int)
      modifies this`trace
      ensures trace == old(trace) + Schedule(ls)
    {
      var k := 0;
      while k < |ls|
        invariant 0 <= k <= |ls|
        invariant trace == old(trace) + ScheduleUpTo(ls, k)
      {
        RunList(ls[k], behaviour);
        AppendAssociative(old(trace), ScheduleUpTo(ls, k), Invoked(ls[k]));
        k := k + 1;
      }
    }

    /**
     * The inner xf_list_for_each_entry loop over one level, head to tail:
     * invoke each runnable node's function and log its result, whatever it is.
     */
    method RunList(members: seq<DescNode>, behaviour: FuncId -> int)
      modifies this`trace
      ensures trace == old(trace) + Invoked(members)
    {
      var j := 0;
      while j < |members|
        invariant 0 <= j <= |members|
        invariant trace == old(trace) + Invoked(members[..j])
      {
        var n := members[j];
        InvokedStep(members, j);
        if n.pDesc.Some? && n.pDesc.value.func.Some? {
          var result := behaviour(n.pDesc.value.func.value);
          trace := trace + [n.pDesc.value];
        }
        j := j + 1;
      }
      assert members[..j] == members;
    }

    /**
     * xf_init_explicit_call_registry: the statements of the two-pass manifest
     * expansion, run in order; a declaration does nothing at run time and a
     * call runs that wrapper, i.e. registers its node at its level.
     */
    method ExplicitCallRegistry(manifest: seq<string>, wrappers: map<string, Wrapper>)
      requires Valid()
      requires ManifestReady(manifest, wrappers)
      modifies this`linked, heads, ManifestNodes(manifest, wrappers)
      ensures Valid()
      ensures Lists() == RegisterAll(old(Lists()), Registrations(manifest, wrappers))
      ensures old(HeadsReady()) ==> HeadsReady()
    {
      var stmts := RegistryRule.ExplicitCallExpansion(RegistryRule.PPState(false, false, None), manifest);
      var calls := RegistryRule.Calls(stmts);
      ghost var ws := Registrations(manifest, wrappers);
      assert |calls| == |manifest| by {
        RegistryRule.ExplicitCallCalls(RegistryRule.PPState(false, false, None), manifest);
      }
      forall j | 0 <= j < |calls|
        ensures calls[j] in wrappers && wrappers[calls[j]] == ws[j]
      {
        RegistryRule.ExplicitCallAt(RegistryRule.PPState(false, false, None), manifest, j);
        assert manifest[j] in manifest;
      }
      forall j, k | 0 <= j < k < |ws|
        ensures ws[j].node != ws[k].node
      {
        ManifestNodesDistinct(manifest, wrappers, j, k);
      }
      forall j | 0 <= j < |ws|
        ensures ws[j].node in ManifestNodes(manifest, wrappers) && ws[j].node.link != Linked
      {
        ManifestNodeOf(manifest, wrappers, j);
        assert manifest[j] in manifest;
      }
      CallAll(calls, wrappers, ws);
    }

    /**
     * The call loop of the pass: calls names, in order, the wrappers ws, which
     * have pairwise distinct nodes none of which is linked yet.
     */
    method CallAll(calls: seq<string>, wrappers: map<string, Wrapper>, ghost ws: seq<Wrapper>)
      requires Valid() && |calls| == |ws|
      requires forall j | 0 <= j < |calls| :: calls[j] in wrappers && wrappers[calls[j]] == ws[j]
      requires forall j, k | 0 <= j < k < |ws| :: ws[j].node != ws[k].node
      requires forall j | 0 <= j < |ws| :: ws[j].node.link != Linked
      modifies this`linked, heads, set j | 0 <= j < |ws| :: ws[j].node
      ensures Valid()
      ensures Lists() == RegisterAll(old(Lists()), ws)
      ensures old(HeadsReady()) ==> HeadsReady()
    {
      var i := 0;
      while i < |calls|
        invariant 0 <= i <= |calls|
        invariant Valid()
        invariant old(HeadsReady()) ==> HeadsReady()
        invariant Lists() == RegisterAll(old(Lists()), ws[..i])
        invariant forall j | i <= j < |ws| :: ws[j].node.link != Linked
      {
        CallWrapper(wrappers[calls[i]], old(Lists()), ws, i);
        i := i + 1;
      }
      assert ws[..|ws|] == ws;
      assert ws[..0] == [];
    }

    /**
     * One call of the pass, `__xf_init_registry_f()`: the wrapper registers its
     * node at its level. The ghost parameters place it in the pass: it is the
     * i-th of the wrappers ws, run on the lists l0 so far extended by ws[..i].
     */
    method CallWrapper(w: Wrapper, ghost l0: seq<seq<DescNode>>, ghost ws: seq<Wrapper>, ghost i: nat)
      requires Valid() && |l0| == LevelCount && i < |ws| && w == ws[i]
      requires Lists() == RegisterAll(l0, ws[..i])
      requires forall j | i <= j < |ws| :: ws[j].node.link != Linked
      requires forall j | i < j < |ws| :: ws[j].node != ws[i].node
      modifies this`linked, heads, w.node
      ensures Valid() && Lists() == RegisterAll(l0, ws[..i + 1])
      ensures forall j | i < j < |ws| :: ws[j].node.link != Linked
      ensures old(HeadsReady()) ==> HeadsReady()
    {
      Register(w.node, w.level);
      RegisterAllStep(l0, ws, i);
    }

    /**
     * xf_init_from_registry: in registry mode run the manifest pass first, then
     * dispatch every level, so everything the pass registered is dispatched.
     */
    method FromRegistry(implMethod: int, manifest: seq<string>, wrappers: map<string, Wrapper>, behaviour: FuncId -> int)
      requires Valid() && HeadsReady()
      requires implMethod == InitConfig.Registry ==> ManifestReady(manifest, wrappers)
      modifies this`linked, this`trace, heads, ManifestNodes(manifest, wrappers)
      ensures Valid() && HeadsReady()
      ensures implMethod == InitConfig.Registry ==> Lists() == RegisterAll(old(Lists()), Registrations(manifest, wrappers))
      ensures implMethod != InitConfig.Registry ==> Lists() == old(Lists())
      ensures implMethod != InitConfig.Registry ==> linked == old(linked) && unchanged(ManifestNodes(manifest, wrappers))
      ensures trace == old(trace) + Schedule(Lists())
    {
      if implMethod == InitConfig.Registry {
        ExplicitCallRegistry(manifest, wrappers);
      }
      RunLevels(behaviour);
    }
  }
}
