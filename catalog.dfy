/** The catalog store: platforms, benchmarks, sections and checks
    (app/models/platform.py, benchmark.py, check.py), held as four tables.
    A row's id is its 1-based position in its table, as the store's
    autoincrement keys are. A section's parent always has a smaller id than
    the section itself, because the seeder creates a parent before its
    children; this is what makes every walk over the section tree finish. */
module Catalog {
  import opened Wrappers
  import opened Sorting
  import opened Text

  datatype Platform = Platform(
    id: nat, name: string, slug: string, osFamily: string, icon: string, description: string)

  datatype Benchmark = Benchmark(
    id: nat, name: string, version: string, platformId: nat,
    releaseDate: Option<string>, description: string, url: string)

  datatype Section = Section(
    id: nat, benchmarkId: nat, parentId: Option<nat>,
    number: string, title: string, description: string, sortOrder: int)

  /** Nullable text columns are plain strings: every reader treats NULL
      exactly as the empty string. */
  datatype Check = Check(
    id: nat, sectionId: nat, number: string, title: string,
    description: string, rationale: string, level: int, scored: bool,
    auditCommand: string, auditSteps: string, expectedOutput: string,
    remediation: string, references: string, sortOrder: int)

  datatype Catalog = Catalog(
    platforms: seq<Platform>, benchmarks: seq<Benchmark>,
    sections: seq<Section>, checks: seq<Check>)

  predicate HasPlatform(cat: Catalog, id: nat) { 1 <= id <= |cat.platforms| }
  predicate HasBenchmark(cat: Catalog, id: nat) { 1 <= id <= |cat.benchmarks| }
  predicate HasSection(cat: Catalog, id: nat) { 1 <= id <= |cat.sections| }
  predicate HasCheck(cat: Catalog, id: nat) { 1 <= id <= |cat.checks| }

  function PlatformAt(cat: Catalog, id: nat): Platform
    requires HasPlatform(cat, id)
  { cat.platforms[id - 1] }

  function BenchmarkAt(cat: Catalog, id: nat): Benchmark
    requires HasBenchmark(cat, id)
  { cat.benchmarks[id - 1] }

  function SectionAt(cat: Catalog, id: nat): Section
    requires HasSection(cat, id)
  { cat.sections[id - 1] }

  function CheckAt(cat: Catalog, id: nat): Check
    requires HasCheck(cat, id)
  { cat.checks[id - 1] }

  /** Section row `i` has its id, a live benchmark, and a parent that was
      created before it and belongs to the same benchmark. */
  predicate SectionLinked(cat: Catalog, i: nat)
    requires i < |cat.sections|
  {
    var s := cat.sections[i];
    && s.id == i + 1
    && HasBenchmark(cat, s.benchmarkId)
    && (s.parentId.Some? ==>
          1 <= s.parentId.value <= i
          && cat.sections[s.parentId.value - 1].benchmarkId == s.benchmarkId)
  }

  /** The foreign keys hold, ids are positions, platform slugs are unique. */
  predicate WellFormed(cat: Catalog) {
    && (forall i :: 0 <= i < |cat.platforms| ==> cat.platforms[i].id == i + 1)
    && (forall i, j :: 0 <= i < j < |cat.platforms| ==> cat.platforms[i].slug != cat.platforms[j].slug)
    && (forall i :: 0 <= i < |cat.benchmarks| ==>
          cat.benchmarks[i].id == i + 1 && HasPlatform(cat, cat.benchmarks[i].platformId))
    && (forall i :: 0 <= i < |cat.sections| ==> SectionLinked(cat, i))
    && (forall i :: 0 <= i < |cat.checks| ==>
          cat.checks[i].id == i + 1 && HasSection(cat, cat.checks[i].sectionId))
  }

  lemma {:induction false} SectionRow(cat: Catalog, k: Section)
    requires WellFormed(cat) && k in cat.sections
    ensures HasSection(cat, k.id) && SectionAt(cat, k.id) == k
    ensures k.parentId.Some? ==> HasSection(cat, k.parentId.value) && k.parentId.value < k.id
  {
    var i :| 0 <= i < |cat.sections| && cat.sections[i] == k;
    assert SectionLinked(cat, i);
  }

  lemma {:induction false} CheckRow(cat: Catalog, c: Check)
    requires WellFormed(cat) && c in cat.checks
    ensures HasCheck(cat, c.id) && CheckAt(cat, c.id) == c && HasSection(cat, c.sectionId)
  {
    var i :| 0 <= i < |cat.checks| && cat.checks[i] == c;
  }

  /** `order_by(sort_order)` on sections and on checks. */
  predicate SectionsBySortOrder(a: Section, b: Section) { a.sortOrder <= b.sortOrder }
  predicate ChecksBySortOrder(a: Check, b: Check) { a.sortOrder <= b.sortOrder }
  /** `order_by(Check.check_number)`: plain code-point order on the number. */
  predicate ChecksByNumber(a: Check, b: Check) { LexLe(a.number, b.number) }

  lemma {:induction false} ChecksByNumberTotalPreorder()
    ensures TotalPreorder(ChecksByNumber)
  {
    LexLeTotalPreorder();
  }

  /** `BenchmarkSection.children`: the sections whose parent is `s`, by sort order. */
  function Children(cat: Catalog, s: nat): (r: seq<Section>)
    requires WellFormed(cat) && HasSection(cat, s)
    ensures forall k :: k in r <==> k in cat.sections && k.parentId == Some(s)
    ensures forall k :: k in r ==> s < k.id && HasSection(cat, k.id) && SectionAt(cat, k.id) == k
    ensures Sorted(r, SectionsBySortOrder)
  {
    var r := SortBy(Filter(cat.sections, (k: Section) => k.parentId == Some(s)), SectionsBySortOrder);
    forall k | k in r ensures s < k.id && HasSection(cat, k.id) && SectionAt(cat, k.id) == k {
      SectionRow(cat, k);
    }
    r
  }

  /** `BenchmarkSection.checks`: the checks of section `s`, by sort order. */
  function OwnChecks(cat: Catalog, s: nat): (r: seq<Check>)
    ensures forall c :: c in r <==> c in cat.checks && c.sectionId == s
    ensures Sorted(r, ChecksBySortOrder)
  {
    SortBy(Filter(cat.checks, (c: Check) => c.sectionId == s), ChecksBySortOrder)
  }

  /** `BenchmarkSection.total_checks`: own checks plus the total of every child. */
  function SubtreeCount(cat: Catalog, s: nat): nat
    requires WellFormed(cat) && HasSection(cat, s)
    decreases |cat.sections| - s, 1
  {
    |OwnChecks(cat, s)| + Sum(KidsCounts(cat, s))
  }

  /** `total_checks` of each child of `s`, in child order. */
  function KidsCounts(cat: Catalog, s: nat): (r: seq<nat>)
    requires WellFormed(cat) && HasSection(cat, s)
    decreases |cat.sections| - s, 0
    ensures |r| == |Children(cat, s)|
  {
    var kids := Children(cat, s);
    seq(|kids|, i requires 0 <= i < |kids| =>
      assert kids[i] in kids;
      SubtreeCount(cat, kids[i].id))
  }

  /** No section counts fewer checks than it holds itself or than any one
      child counts, and a section with no children counts only its own. */
  lemma {:induction false} SubtreeCountBounds(cat: Catalog, s: nat)
    requires WellFormed(cat) && HasSection(cat, s)
    ensures SubtreeCount(cat, s) >= |OwnChecks(cat, s)|
    ensures Children(cat, s) == [] ==> SubtreeCount(cat, s) == |OwnChecks(cat, s)|
    ensures forall k :: k in Children(cat, s) ==> SubtreeCount(cat, k.id) <= SubtreeCount(cat, s)
  {
    var kids := Children(cat, s);
    var counts := KidsCounts(cat, s);
    forall k | k in kids ensures SubtreeCount(cat, k.id) <= SubtreeCount(cat, s) {
      var j :| 0 <= j < |kids| && kids[j] == k;
      SumBounds(counts, j);
    }
  }

  /** The loop of `BenchmarkSection.total_checks`. */
  method TotalChecks(cat: Catalog, s: nat) returns (count: nat)
    requires WellFormed(cat) && HasSection(cat, s)
    ensures count == SubtreeCount(cat, s)
    decreases |cat.sections| - s
  {
    count := |OwnChecks(cat, s)|;
    var kids := Children(cat, s);
    ghost var counts := KidsCounts(cat, s);
    for i := 0 to |kids|
      invariant count == |OwnChecks(cat, s)| + Sum(counts[..i])
    {
      assert kids[i] in kids;
      var sub := TotalChecks(cat, kids[i].id);
      SumPrefix(counts, i);
      count := count + sub;
    }
    assert counts[..|kids|] == counts;
  }

  /** The checks whose section belongs to benchmark `b`, in store order
      (the join behind `Benchmark.total_checks`). */
  function BenchmarkChecks(cat: Catalog, b: nat): (r: seq<Check>)
    ensures forall c :: c in r <==>
      c in cat.checks && HasSection(cat, c.sectionId) && SectionAt(cat, c.sectionId).benchmarkId == b
  {
    Filter(cat.checks, (c: Check) => HasSection(cat, c.sectionId) && SectionAt(cat, c.sectionId).benchmarkId == b)
  }

  /** Check ids strictly increase along a sequence of checks. */
  predicate IdsIncrease(cs: seq<Check>) {
    forall i, j :: 0 <= i < j < |cs| ==> cs[i].id < cs[j].id
  }

  predicate IdBefore(a: Check, b: Check) { a.id < b.id }

  /** The checks of a benchmark come in store order, so no check appears twice. */
  lemma {:induction false} BenchmarkChecksIncrease(cat: Catalog, b: nat)
    requires WellFormed(cat)
    ensures IdsIncrease(BenchmarkChecks(cat, b))
  {
    assert Sorted(cat.checks, IdBefore);
    FilterSorted(cat.checks, (c: Check) => HasSection(cat, c.sectionId) && SectionAt(cat, c.sectionId).benchmarkId == b, IdBefore);
  }

  /** Number of parent links between `s` and its root. */
  function Depth(cat: Catalog, s: nat): nat
    requires WellFormed(cat) && HasSection(cat, s)
    decreases s
  {
    assert SectionLinked(cat, s - 1);
    match SectionAt(cat, s).parentId
    case None => 0
    case Some(p) => 1 + Depth(cat, p)
  }

  /** The chain of sections from the root down to `s`, each the parent of the next. */
  function Ancestors(cat: Catalog, s: nat): (r: seq<Section>)
    requires WellFormed(cat) && HasSection(cat, s)
    decreases s
    ensures |r| == Depth(cat, s) + 1
    ensures r[|r| - 1] == SectionAt(cat, s)
    ensures r[0].parentId.None?
    ensures forall i :: 0 <= i < |r| ==>
      HasSection(cat, r[i].id) && SectionAt(cat, r[i].id) == r[i]
      && r[i].benchmarkId == SectionAt(cat, s).benchmarkId
    ensures forall i :: 0 <= i < |r| - 1 ==> r[i + 1].parentId == Some(r[i].id)
  {
    assert SectionLinked(cat, s - 1);
    var sec := SectionAt(cat, s);
    match sec.parentId
    case None => [sec]
    case Some(p) =>
      assert SectionLinked(cat, p - 1);
      var up := Ancestors(cat, p);
      assert up[|up| - 1].id == p;
      up + [sec]
  }

  /** One step of the climb: the chain to `s` is the chain to its parent
      followed by `s` itself. */
  lemma {:induction false} AncestorsStep(cat: Catalog, s: nat)
    requires WellFormed(cat) && HasSection(cat, s)
    ensures SectionAt(cat, s).parentId.None? ==> Ancestors(cat, s) == [SectionAt(cat, s)]
    ensures SectionAt(cat, s).parentId.Some? ==>
      SectionAt(cat, s).parentId.value < s
      && HasSection(cat, SectionAt(cat, s).parentId.value)
      && Ancestors(cat, s) == Ancestors(cat, SectionAt(cat, s).parentId.value) + [SectionAt(cat, s)]
  {
    assert SectionLinked(cat, s - 1);
  }

  /** `t` is `s` or lies below it. */
  predicate InSubtree(cat: Catalog, t: nat, s: nat)
    requires WellFormed(cat) && HasSection(cat, t)
    decreases t
  {
    assert SectionLinked(cat, t - 1);
    t == s || (SectionAt(cat, t).parentId.Some? && InSubtree(cat, SectionAt(cat, t).parentId.value, s))
  }

  /** The root reached by following parent links up from `s`. */
  function TopAncestor(cat: Catalog, s: nat): (r: nat)
    requires WellFormed(cat) && HasSection(cat, s)
    decreases s
    ensures HasSection(cat, r) && SectionAt(cat, r).parentId.None?
    ensures InSubtree(cat, s, r)
    ensures r == Ancestors(cat, s)[0].id
  {
    assert SectionLinked(cat, s - 1);
    match SectionAt(cat, s).parentId
    case None => s
    case Some(p) => TopAncestor(cat, p)
  }

  /** A section is below only sections with an id no larger than its own. */
  lemma {:induction false} InSubtreeBelow(cat: Catalog, t: nat, s: nat)
    requires WellFormed(cat) && HasSection(cat, t) && InSubtree(cat, t, s)
    ensures HasSection(cat, s) && s <= t
    decreases t
  {
    assert SectionLinked(cat, t - 1);
    if t != s {
      InSubtreeBelow(cat, SectionAt(cat, t).parentId.value, s);
    }
  }

  /** Two sections that `t` lies below lie on one chain: the lower one is
      below the upper one. */
  lemma {:induction false} InSubtreeOrdered(cat: Catalog, t: nat, a: nat, b: nat)
    requires WellFormed(cat) && HasSection(cat, t)
    requires InSubtree(cat, t, a) && InSubtree(cat, t, b) && a <= b
    ensures HasSection(cat, b) && InSubtree(cat, b, a)
    decreases t
  {
    assert SectionLinked(cat, t - 1);
    if t != b {
      var p := SectionAt(cat, t).parentId.value;
      InSubtreeBelow(cat, p, b);
      InSubtreeOrdered(cat, p, a, b);
    }
  }

  /** The subtrees of two different children of `s` share no section. */
  lemma {:induction false} SiblingSubtrees(cat: Catalog, t: nat, s: nat, k1: Section, k2: Section)
    requires WellFormed(cat) && HasSection(cat, t) && HasSection(cat, s)
    requires k1 in Children(cat, s) && k2 in Children(cat, s)
    requires InSubtree(cat, t, k1.id) && InSubtree(cat, t, k2.id)
    ensures k1 == k2
  {
    if k1.id <= k2.id {
      SiblingsOrdered(cat, t, s, k1, k2);
    } else {
      SiblingsOrdered(cat, t, s, k2, k1);
    }
  }

  lemma {:induction false} SiblingsOrdered(cat: Catalog, t: nat, s: nat, k1: Section, k2: Section)
    requires WellFormed(cat) && HasSection(cat, t) && HasSection(cat, s)
    requires k1 in Children(cat, s) && k2 in Children(cat, s) && k1.id <= k2.id
    requires InSubtree(cat, t, k1.id) && InSubtree(cat, t, k2.id)
    ensures k1 == k2
  {
    InSubtreeOrdered(cat, t, k1.id, k2.id);
    assert SectionAt(cat, k2.id) == k2 && k2.parentId == Some(s);
    if k1.id != k2.id {
      assert InSubtree(cat, s, k1.id);
      InSubtreeBelow(cat, s, k1.id);
      assert false;
    }
  }

  /** The children of a section are all different rows. */
  lemma {:induction false} ChildrenDistinct(cat: Catalog, s: nat)
    requires WellFormed(cat) && HasSection(cat, s)
    ensures Distinct(Children(cat, s))
  {
    assert Distinct(cat.sections) by {
      forall i, j | 0 <= i < j < |cat.sections| ensures cat.sections[i] != cat.sections[j] {
        assert SectionLinked(cat, i) && SectionLinked(cat, j);
      }
    }
    FilterDistinct(cat.sections, (k: Section) => k.parentId == Some(s));
    SortByDistinct(Filter(cat.sections, (k: Section) => k.parentId == Some(s)), SectionsBySortOrder);
  }

  /** The own checks of a section are all different rows. */
  lemma {:induction false} OwnChecksDistinct(cat: Catalog, s: nat)
    requires WellFormed(cat)
    ensures Distinct(OwnChecks(cat, s))
  {
    assert Distinct(cat.checks) by {
      forall i, j | 0 <= i < j < |cat.checks| ensures cat.checks[i] != cat.checks[j] {
        assert cat.checks[i].id == i + 1 && cat.checks[j].id == j + 1;
      }
    }
    FilterDistinct(cat.checks, (c: Check) => c.sectionId == s);
    SortByDistinct(Filter(cat.checks, (c: Check) => c.sectionId == s), ChecksBySortOrder);
  }
}
