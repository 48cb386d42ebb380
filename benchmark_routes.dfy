/** The benchmark pages (app/routes/benchmarks.py): the list of a
    benchmark's top-level sections, and a section page with every check
    below the section and the breadcrumb from the root. */
module BenchmarkRoutes {
  import opened Wrappers
  import opened Sorting
  import opened Catalog

  /** The checks of section `s` and of all its descendants, pre-order:
      `s`'s own checks by sort order, then each child's enumeration in child
      sort order (`_get_section_checks`). */
  function Enumerate(cat: Catalog, s: nat): seq<Check>
    requires WellFormed(cat) && HasSection(cat, s)
    decreases |cat.sections| - s, 1
  {
    OwnChecks(cat, s) + Flatten(KidsParts(cat, s))
  }

  /** The enumeration of each child of `s`, in child order. */
  function KidsParts(cat: Catalog, s: nat): (r: seq<seq<Check>>)
    requires WellFormed(cat) && HasSection(cat, s)
    decreases |cat.sections| - s, 0
    ensures |r| == |Children(cat, s)|
  {
    var kids := Children(cat, s);
    seq(|kids|, i requires 0 <= i < |kids| =>
      assert kids[i] in kids;
      Enumerate(cat, kids[i].id))
  }

  /** The recursion of `_get_section_checks`, extending the list child by child. */
  method GetSectionChecks(cat: Catalog, s: nat) returns (checks: seq<Check>)
    requires WellFormed(cat) && HasSection(cat, s)
    ensures checks == Enumerate(cat, s)
    decreases |cat.sections| - s
  {
    var own := OwnChecks(cat, s);
    var kids := Children(cat, s);
    ghost var parts := KidsParts(cat, s);
    var below := [];
    for i := 0 to |kids|
      invariant below == Flatten(parts[..i])
    {
      assert kids[i] in kids;
      var sub := GetSectionChecks(cat, kids[i].id);
      FlattenPrefix(parts, i);
      below := below + sub;
    }
    assert parts[..|kids|] == parts;
    checks := own + below;
  }

  /** The enumeration of a section is exactly as long as its `total_checks`. */
  lemma {:induction false} EnumerateLength(cat: Catalog, s: nat)
    requires WellFormed(cat) && HasSection(cat, s)
    ensures |Enumerate(cat, s)| == SubtreeCount(cat, s)
    decreases |cat.sections| - s
  {
    var kids := Children(cat, s);
    var parts := KidsParts(cat, s);
    var counts := KidsCounts(cat, s);
    forall j | 0 <= j < |parts| ensures |parts[j]| == counts[j] {
      assert kids[j] in kids;
      EnumerateLength(cat, kids[j].id);
    }
    FlattenLength(parts, counts);
  }

  /** One level of the enumeration: a check is listed under `s` when it is
      one of `s`'s own checks or is listed under one of its children. */
  lemma {:induction false} EnumerateStep(cat: Catalog, s: nat, c: Check)
    requires WellFormed(cat) && HasSection(cat, s)
    ensures c in Enumerate(cat, s) <==>
      c in OwnChecks(cat, s) || exists k :: k in Children(cat, s) && c in Enumerate(cat, k.id)
  {
    var kids := Children(cat, s);
    var parts := KidsParts(cat, s);
    FlattenMember(parts, c);
    if exists j :: 0 <= j < |parts| && c in parts[j] {
      var j :| 0 <= j < |parts| && c in parts[j];
      assert kids[j] in kids;
    }
    if exists k :: k in kids && c in Enumerate(cat, k.id) {
      var k :| k in kids && c in Enumerate(cat, k.id);
      var j :| 0 <= j < |kids| && kids[j] == k;
      assert parts[j] == Enumerate(cat, k.id);
    }
  }

  /** Below `k`, whose parent is `s`, means below `s`. */
  lemma {:induction false} InSubtreeOfParent(cat: Catalog, t: nat, k: nat, s: nat)
    requires WellFormed(cat) && HasSection(cat, t) && HasSection(cat, k)
    requires SectionAt(cat, k).parentId == Some(s)
    requires InSubtree(cat, t, k)
    ensures InSubtree(cat, t, s)
    decreases t
  {
    assert SectionLinked(cat, t - 1);
    assert SectionLinked(cat, k - 1);
    if t == k {
      assert InSubtree(cat, s, s);
    } else {
      InSubtreeOfParent(cat, SectionAt(cat, t).parentId.value, k, s);
    }
  }

  /** A section strictly below `s` lies below one of `s`'s children. */
  lemma {:induction false} ChildOnPath(cat: Catalog, t: nat, s: nat) returns (k: nat)
    requires WellFormed(cat) && HasSection(cat, t) && HasSection(cat, s)
    requires InSubtree(cat, t, s) && t != s
    ensures HasSection(cat, k) && SectionAt(cat, k) in Children(cat, s)
    ensures InSubtree(cat, t, k)
    decreases t
  {
    assert SectionLinked(cat, t - 1);
    var p := SectionAt(cat, t).parentId.value;
    if p == s {
      k := t;
      assert SectionAt(cat, t) == cat.sections[t - 1];
    } else {
      k := ChildOnPath(cat, p, s);
    }
  }

  /** Every enumerated check belongs to `s` or to a section below it. */
  lemma {:induction false} EnumerateSound(cat: Catalog, s: nat, c: Check)
    requires WellFormed(cat) && HasSection(cat, s)
    requires c in Enumerate(cat, s)
    ensures c in cat.checks && HasSection(cat, c.sectionId) && InSubtree(cat, c.sectionId, s)
    decreases |cat.sections| - s
  {
    EnumerateStep(cat, s, c);
    if c in OwnChecks(cat, s) {
      CheckRow(cat, c);
    } else {
      var k :| k in Children(cat, s) && c in Enumerate(cat, k.id);
      EnumerateSound(cat, k.id, c);
      InSubtreeOfParent(cat, c.sectionId, k.id, s);
    }
  }

  /** Every check of `s` or of a section below it is enumerated. */
  lemma {:induction false} EnumerateComplete(cat: Catalog, s: nat, c: Check)
    requires WellFormed(cat) && HasSection(cat, s)
    requires c in cat.checks && HasSection(cat, c.sectionId) && InSubtree(cat, c.sectionId, s)
    ensures c in Enumerate(cat, s)
    decreases |cat.sections| - s
  {
    EnumerateStep(cat, s, c);
    if c.sectionId == s {
      assert c in OwnChecks(cat, s);
    } else {
      var k := ChildOnPath(cat, c.sectionId, s);
      assert SectionLinked(cat, k - 1);
      var child := SectionAt(cat, k);
      assert child in Children(cat, s) && child.id == k;
      EnumerateComplete(cat, k, c);
    }
  }

  /** A check is enumerated under `s` exactly when it belongs to `s` or to a
      section below `s`. */
  lemma {:induction false} EnumerateMembers(cat: Catalog, s: nat, c: Check)
    requires WellFormed(cat) && HasSection(cat, s)
    ensures c in Enumerate(cat, s) <==>
      c in cat.checks && HasSection(cat, c.sectionId) && InSubtree(cat, c.sectionId, s)
  {
    if c in Enumerate(cat, s) {
      EnumerateSound(cat, s, c);
    }
    if c in cat.checks && HasSection(cat, c.sectionId) && InSubtree(cat, c.sectionId, s) {
      EnumerateComplete(cat, s, c);
    }
  }

  /** `_build_breadcrumb`: climb the parent links, inserting each section at
      the front of the list. */
  method BuildBreadcrumb(cat: Catalog, s: nat) returns (crumbs: seq<Section>)
    requires WellFormed(cat) && HasSection(cat, s)
    ensures crumbs == Ancestors(cat, s)
  {
    crumbs := [];
    var current: Option<nat> := Some(s);
    while current.Some?
      invariant current.Some? ==>
        HasSection(cat, current.value) && Ancestors(cat, s) == Ancestors(cat, current.value) + crumbs
      invariant current.None? ==> crumbs == Ancestors(cat, s)
      decreases if current.Some? then current.value else 0
    {
      BreadcrumbStep(cat, s, current.value, crumbs);
      var section := SectionAt(cat, current.value);
      crumbs := [section] + crumbs;
      current := section.parentId;
    }
  }

  /** Putting a section in front of the crumbs gathered below it leaves its
      parent's chain still to be put in front, or, at the top, the whole
      chain to `s`. */
  lemma {:induction false} BreadcrumbStep(cat: Catalog, s: nat, t: nat, crumbs: seq<Section>)
    requires WellFormed(cat) && HasSection(cat, s) && HasSection(cat, t)
    requires Ancestors(cat, s) == Ancestors(cat, t) + crumbs
    ensures SectionAt(cat, t).parentId.None? ==> [SectionAt(cat, t)] + crumbs == Ancestors(cat, s)
    ensures SectionAt(cat, t).parentId.Some? ==>
      var p := SectionAt(cat, t).parentId.value;
      p < t && HasSection(cat, p) && Ancestors(cat, s) == Ancestors(cat, p) + ([SectionAt(cat, t)] + crumbs)
  {
    AncestorsStep(cat, t);
    if SectionAt(cat, t).parentId.Some? {
      ConcatAssoc(Ancestors(cat, SectionAt(cat, t).parentId.value), [SectionAt(cat, t)], crumbs);
    }
  }

  lemma {:induction false} ConcatAssoc<T>(a: seq<T>, b: seq<T>, c: seq<T>)
    ensures a + b + c == a + (b + c)
  {
  }

  /** The top-level sections of benchmark `b`, by sort order. */
  function RootSections(cat: Catalog, b: nat): (r: seq<Section>)
    ensures forall k :: k in r <==> k in cat.sections && k.benchmarkId == b && k.parentId.None?
    ensures Sorted(r, SectionsBySortOrder)
  {
    SortBy(Filter(cat.sections, (k: Section) => k.benchmarkId == b && k.parentId.None?), SectionsBySortOrder)
  }

  /** Every section of a benchmark hangs below one of the benchmark's
      top-level sections, and that section is the one its parent links lead to. */
  lemma {:induction false} RootsCoverBenchmark(cat: Catalog, b: nat, t: nat)
    requires WellFormed(cat) && HasSection(cat, t) && SectionAt(cat, t).benchmarkId == b
    ensures SectionAt(cat, TopAncestor(cat, t)) in RootSections(cat, b)
    ensures InSubtree(cat, t, TopAncestor(cat, t))
  {
    var top := TopAncestor(cat, t);
    var chain := Ancestors(cat, t);
    assert chain[0] == SectionAt(cat, top);
    assert SectionAt(cat, top) == cat.sections[top - 1];
  }

  /** `detail`: 404 for an unknown benchmark, else its top-level sections. */
  function BenchmarkDetail(cat: Catalog, b: nat): (r: Response<seq<Section>>)
    ensures !HasBenchmark(cat, b) ==> r == NotFound
    ensures HasBenchmark(cat, b) ==>
      && r.Ok?
      && (forall k :: k in r.value <==> k in cat.sections && k.benchmarkId == b && k.parentId.None?)
      && Sorted(r.value, SectionsBySortOrder)
  {
    if !HasBenchmark(cat, b) then NotFound else Ok(RootSections(cat, b))
  }

  datatype SectionView = SectionView(
    benchmark: Benchmark, section: Section, checks: seq<Check>, breadcrumb: seq<Section>)

  /** `section`: 404 unless the benchmark and the section exist and the
      section belongs to that benchmark; else every check below the section
      and the breadcrumb. */
  method SectionPage(cat: Catalog, b: nat, s: nat) returns (r: Response<SectionView>)
    requires WellFormed(cat)
    ensures r.NotFound? <==>
      !HasBenchmark(cat, b) || !HasSection(cat, s) || SectionAt(cat, s).benchmarkId != b
    ensures r.Ok? ==>
      && HasSection(cat, s)
      && r.value == SectionView(BenchmarkAt(cat, b), SectionAt(cat, s), Enumerate(cat, s), Ancestors(cat, s))
    ensures !r.Forbidden?
  {
    if !HasBenchmark(cat, b) || !HasSection(cat, s) {
      return NotFound;
    }
    var section := SectionAt(cat, s);
    if section.benchmarkId != b {
      return NotFound;
    }
    var checks := GetSectionChecks(cat, s);
    var breadcrumb := BuildBreadcrumb(cat, s);
    r := Ok(SectionView(BenchmarkAt(cat, b), section, checks, breadcrumb));
  }

  /** The enumeration lists every check at most once: own checks are
      different rows, no own check lies below a child, and the subtrees of
      two children are disjoint. */
  lemma {:induction false} EnumerateDistinct(cat: Catalog, s: nat)
    requires WellFormed(cat) && HasSection(cat, s)
    ensures Distinct(Enumerate(cat, s))
    decreases |cat.sections| - s
  {
    var own := OwnChecks(cat, s);
    var kids := Children(cat, s);
    var parts := KidsParts(cat, s);
    OwnChecksDistinct(cat, s);
    ChildrenDistinct(cat, s);
    forall j | 0 <= j < |parts| ensures Distinct(parts[j]) {
      assert kids[j] in kids;
      EnumerateDistinct(cat, kids[j].id);
    }
    forall i, j, c | 0 <= i < j < |parts| && c in parts[i] ensures c !in parts[j] {
      assert kids[i] in kids && kids[j] in kids;
      if c in parts[j] {
        EnumerateSound(cat, kids[i].id, c);
        EnumerateSound(cat, kids[j].id, c);
        SiblingSubtrees(cat, c.sectionId, s, kids[i], kids[j]);
        assert false;
      }
    }
    FlattenDistinct(parts);
    forall c | c in own ensures c !in Flatten(parts) {
      FlattenMember(parts, c);
      if c in Flatten(parts) {
        var j :| 0 <= j < |parts| && c in parts[j];
        assert kids[j] in kids;
        EnumerateSound(cat, kids[j].id, c);
        InSubtreeBelow(cat, s, kids[j].id);
        assert false;
      }
    }
    DistinctConcat(own, Flatten(parts));
  }

  /** The checks stored in section `s` or below it. */
  ghost function SubtreeChecks(cat: Catalog, s: nat): set<Check>
    requires WellFormed(cat)
  {
    set c | c in cat.checks && HasSection(cat, c.sectionId) && InSubtree(cat, c.sectionId, s)
  }

  /** The enumeration holds exactly the checks of the subtree. */
  lemma {:induction false} EnumerateSet(cat: Catalog, s: nat)
    requires WellFormed(cat) && HasSection(cat, s)
    ensures (set x | x in Enumerate(cat, s)) == SubtreeChecks(cat, s)
  {
    forall c ensures c in Enumerate(cat, s) <==> c in SubtreeChecks(cat, s) {
      EnumerateMembers(cat, s, c);
    }
  }

  /** `total_checks` is the number of different checks stored in the
      section or below it. */
  lemma {:induction false} TotalChecksCountsSubtree(cat: Catalog, s: nat)
    requires WellFormed(cat) && HasSection(cat, s)
    ensures SubtreeCount(cat, s) == |SubtreeChecks(cat, s)|
  {
    EnumerateLength(cat, s);
    EnumerateDistinct(cat, s);
    DistinctCard(Enumerate(cat, s));
    EnumerateSet(cat, s);
  }
}
