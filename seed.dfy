/** Loading the catalog and the user table (app/utils/seed.py). The parsed
    YAML arrives as values: a benchmark with its nested sections and checks,
    or a list of users. Reading files and printing progress are left out. */
module Seed {
  import opened Wrappers
  import opened Sorting
  import opened Catalog
  import opened AuthRoutes

  // ---------------------------------------------------------------------
  // The parsed benchmark file

  /** One check of a benchmark file; a missing text field reads as the empty
      string, a missing `level` or `scored` as `None`. */
  datatype CheckData = CheckData(
    number: string, title: string, description: string, rationale: string,
    level: Option<int>, scored: Option<bool>, auditCommand: string, auditSteps: string,
    expectedOutput: string, remediation: string, references: string)

  /** One section of a benchmark file, with its checks and its sub-sections. */
  datatype SectionData = SectionData(
    number: string, title: string, description: string,
    checks: seq<CheckData>, children: seq<SectionData>)

  datatype BenchmarkData = BenchmarkData(
    platform: string, name: string, version: string, releaseDate: Option<string>,
    description: string, url: string, sections: seq<SectionData>)

  /** Number of checks in a section and everything below it. */
  function CheckTotal(d: SectionData): nat
    decreases d
  {
    |d.checks| + ChecksIn(d.children)
  }

  /** Number of checks in the subtrees of `ds`. */
  function ChecksIn(ds: seq<SectionData>): nat
    decreases ds
  {
    if ds == [] then 0 else ChecksIn(ds[..|ds| - 1]) + CheckTotal(ds[|ds| - 1])
  }

  /** Number of sections in a section's subtree, itself included. */
  function SectionTotal(d: SectionData): nat
    decreases d
  {
    1 + SectionsIn(d.children)
  }

  /** Number of sections in the subtrees of `ds`. */
  function SectionsIn(ds: seq<SectionData>): nat
    decreases ds
  {
    if ds == [] then 0 else SectionsIn(ds[..|ds| - 1]) + SectionTotal(ds[|ds| - 1])
  }

  /** Counting one more subtree. */
  lemma {:induction false} InPrefix(ds: seq<SectionData>, j: nat)
    requires j < |ds|
    ensures ChecksIn(ds[..j + 1]) == ChecksIn(ds[..j]) + CheckTotal(ds[j])
    ensures SectionsIn(ds[..j + 1]) == SectionsIn(ds[..j]) + SectionTotal(ds[j])
  {
    assert ds[..j + 1][..j] == ds[..j];
  }

  /** The check row made from the `i`-th check of a section: missing fields
      take the column defaults, level 1 and scored. */
  function MakeCheck(id: nat, sectionId: nat, cd: CheckData, i: nat): (c: Check)
    ensures c.id == id && c.sectionId == sectionId && c.sortOrder == i
    ensures c.number == cd.number && c.title == cd.title
    ensures c.level == cd.level.GetOr(1) && c.scored == cd.scored.GetOr(true)
    ensures cd.level.None? ==> c.level == 1
    ensures cd.scored.None? ==> c.scored
  {
    Check(id, sectionId, cd.number, cd.title, cd.description, cd.rationale,
          cd.level.GetOr(1), cd.scored.GetOr(true), cd.auditCommand, cd.auditSteps,
          cd.expectedOutput, cd.remediation, cd.references, i)
  }

  /** `b` is `a` with rows added to the sections and checks tables only. */
  predicate Extends(a: Catalog, b: Catalog) {
    && b.platforms == a.platforms && b.benchmarks == a.benchmarks
    && a.sections <= b.sections && a.checks <= b.checks
  }

  /** The check rows made from a section's checks, the first getting id
      `first + 1`, each its position in the file as its sort order. */
  function NewChecks(first: nat, sectionId: nat, cds: seq<CheckData>): (r: seq<Check>)
    ensures |r| == |cds|
    ensures forall i :: 0 <= i < |cds| ==> r[i] == MakeCheck(first + i + 1, sectionId, cds[i], i)
  {
    seq(|cds|, i requires 0 <= i < |cds| => MakeCheck(first + i + 1, sectionId, cds[i], i))
  }

  /** The row at which the `j`-th of the sections `ds` lands when they are
      created one after the other from row `start`: after the subtrees of
      the ones before it. */
  function SubtreeRow(start: nat, ds: seq<SectionData>, j: nat): nat
    requires j <= |ds|
  {
    start + SectionsIn(ds[..j])
  }

  /** Row `row` holds the section made from `d`, under `parent`, with that
      sort order. */
  predicate Placed(sections: seq<Section>, row: nat, parent: Option<nat>, d: SectionData, sortOrder: int) {
    && row < |sections|
    && sections[row].id == row + 1
    && sections[row].parentId == parent
    && sections[row].number == d.number
    && sections[row].title == d.title
    && sections[row].description == d.description
    && sections[row].sortOrder == sortOrder
  }

  lemma {:induction false} PlacedExtends(a: seq<Section>, b: seq<Section>, row: nat, parent: Option<nat>,
                                         d: SectionData, sortOrder: int)
    requires a <= b && Placed(a, row, parent, d, sortOrder)
    ensures Placed(b, row, parent, d, sortOrder)
  {
    assert b[row] == a[row];
  }

  /** The sections made from `ds[..n]` sit at their rows from `start`, under
      `parent`: a child takes its position among its siblings as its sort
      order (`ordered`), a top-level section takes 0. */
  predicate AllPlaced(sections: seq<Section>, start: nat, parent: Option<nat>, ds: seq<SectionData>, n: nat,
                      ordered: bool)
    requires n <= |ds|
  {
    forall k :: 0 <= k < n ==> Placed(sections, SubtreeRow(start, ds, k), parent, ds[k], if ordered then k else 0)
  }

  /** Every section row from `lo` on belongs to benchmark `b`. */
  predicate RowsOf(sections: seq<Section>, lo: nat, b: nat) {
    forall k :: lo <= k < |sections| ==> sections[k].benchmarkId == b
  }

  /** Creating the subtree of `ds[j]` after those of `ds[..j]` places it and
      keeps the earlier ones where they were. */
  lemma {:induction false} SubtreeStep(before: seq<Section>, after: seq<Section>, start: nat, parent: Option<nat>,
                                       ds: seq<SectionData>, j: nat, ordered: bool, b: nat)
    requires j < |ds| && before <= after && start <= |before|
    requires |before| == SubtreeRow(start, ds, j)
    requires AllPlaced(before, start, parent, ds, j, ordered)
    requires Placed(after, |before|, parent, ds[j], if ordered then j else 0)
    requires |after| == |before| + SectionTotal(ds[j])
    requires RowsOf(before, start, b) && RowsOf(after, |before|, b)
    ensures |after| == SubtreeRow(start, ds, j + 1)
    ensures AllPlaced(after, start, parent, ds, j + 1, ordered)
    ensures RowsOf(after, start, b)
  {
    InPrefix(ds, j);
    forall k | 0 <= k < j + 1
      ensures Placed(after, SubtreeRow(start, ds, k), parent, ds[k], if ordered then k else 0)
    {
      if k < j {
        PlacedExtends(before, after, SubtreeRow(start, ds, k), parent, ds[k], if ordered then k else 0);
      }
    }
    forall k | start <= k < |after| ensures after[k].benchmarkId == b {
      if k < |before| {
        assert after[k] == before[k];
      }
    }
  }

  lemma {:induction false} PrefixSlice<T>(a: seq<T>, b: seq<T>, i: nat, j: nat)
    requires a <= b && i <= j <= |a|
    ensures b[i..j] == a[i..j]
  {
  }

  /** Since `start`, the subtrees of `ds[..j]` have been created one after
      the other: rows were only added, to the sections and checks tables;
      every new section row belongs to benchmark `b`; and each of the `j`
      sections sits at its row under `parent`. */
  predicate SubtreesMade(start: Catalog, now: Catalog, b: nat, parent: Option<nat>, ds: seq<SectionData>, j: nat,
                         ordered: bool)
    requires j <= |ds|
  {
    && Extends(start, now)
    && |now.sections| == SubtreeRow(|start.sections|, ds, j)
    && |now.checks| == |start.checks| + ChecksIn(ds[..j])
    && AllPlaced(now.sections, |start.sections|, parent, ds, j, ordered)
    && RowsOf(now.sections, |start.sections|, b)
  }

  /** Creating the subtree of `ds[j]` next extends what has been made by one
      more subtree. */
  lemma {:induction false} SubtreesStep(start: Catalog, before: Catalog, after: Catalog, b: nat, parent: Option<nat>,
                                        ds: seq<SectionData>, j: nat, ordered: bool)
    requires j < |ds|
    requires SubtreesMade(start, before, b, parent, ds, j, ordered)
    requires Extends(before, after)
    requires |after.sections| == |before.sections| + SectionTotal(ds[j])
    requires |after.checks| == |before.checks| + CheckTotal(ds[j])
    requires Placed(after.sections, |before.sections|, parent, ds[j], if ordered then j else 0)
    requires RowsOf(after.sections, |before.sections|, b)
    ensures SubtreesMade(start, after, b, parent, ds, j + 1, ordered)
  {
    SubtreeStep(before.sections, after.sections, |start.sections|, parent, ds, j, ordered, b);
    InPrefix(ds, j);
  }

  /** Position of the first platform with the slug (`filter_by(slug=...).first()`). */
  function FindPlatform(platforms: seq<Platform>, slug: string): (r: Option<nat>)
    ensures r.Some? ==>
      && r.value < |platforms| && platforms[r.value].slug == slug
      && forall j :: 0 <= j < r.value ==> platforms[j].slug != slug
    ensures r.None? ==> forall j :: 0 <= j < |platforms| ==> platforms[j].slug != slug
  {
    if platforms == [] then None
    else if platforms[0].slug == slug then Some(0)
    else match FindPlatform(platforms[1..], slug)
      case None => None
      case Some(i) => Some(i + 1)
  }

  /** A benchmark with this name and version is already stored. */
  predicate HasNameVersion(benchmarks: seq<Benchmark>, name: string, version: string) {
    exists i :: 0 <= i < |benchmarks| && benchmarks[i].name == name && benchmarks[i].version == version
  }

  datatype SeedOutcome = PlatformMissing | AlreadyExists | Loaded(checkCount: nat)

  /** The fields of one of the supported platforms. */
  datatype PlatformSpec = PlatformSpec(name: string, slug: string, osFamily: string, icon: string, description: string)

  const DefaultPlatforms: seq<PlatformSpec> := [
    PlatformSpec("Debian Linux 12", "debian-12", "Linux", "debian", "Debian GNU/Linux 12 (Bookworm)"),
    PlatformSpec("Ubuntu 24.04 LTS", "ubuntu-2404", "Linux", "ubuntu", "Ubuntu 24.04 LTS (Noble Numbat)"),
    PlatformSpec("Windows Server 2022", "windows-2022", "Windows", "windows", "Microsoft Windows Server 2022"),
    PlatformSpec("RHEL 9", "rhel-9", "Linux", "redhat", "Red Hat Enterprise Linux 9"),
    PlatformSpec("CentOS 7", "centos-7", "Linux", "centos", "CentOS Linux 7"),
    PlatformSpec("Amazon Linux 2023", "amazon-linux-2023", "Linux", "amazon", "Amazon Linux 2023"),
    PlatformSpec("macOS Sonoma", "macos-sonoma", "macOS", "apple", "Apple macOS 14 (Sonoma)"),
    PlatformSpec("Cisco IOS 17", "cisco-ios-17", "Network", "cisco", "Cisco IOS XE 17")
  ]

  /** The slugs of the first `n` listed platforms are taken. */
  predicate PlatformsPresent(platforms: seq<Platform>, specs: seq<PlatformSpec>, n: nat) {
    forall k :: 0 <= k < n && k < |specs| ==> FindPlatform(platforms, specs[k].slug).Some?
  }

  /** Appending a platform keeps every slug that was found, and finds the new one. */
  lemma {:induction false} FindPlatformAppend(platforms: seq<Platform>, p: Platform, slug: string)
    ensures FindPlatform(platforms, slug).Some? ==> FindPlatform(platforms + [p], slug) == FindPlatform(platforms, slug)
    ensures p.slug == slug ==> FindPlatform(platforms + [p], slug).Some?
  {
    var all := platforms + [p];
    if FindPlatform(platforms, slug).Some? {
      var i := FindPlatform(platforms, slug).value;
      assert all[i] == platforms[i];
      var r := FindPlatform(all, slug);
      if r.Some? && r.value < |platforms| {
        assert all[r.value] == platforms[r.value];
      }
    }
    if p.slug == slug {
      assert all[|platforms|].slug == slug;
    }
  }

  class CatalogStore {
    var cat: Catalog

    predicate Valid()
      reads this
    {
      WellFormed(cat)
    }

    constructor ()
      ensures Valid() && cat == Catalog([], [], [], [])
    {
      cat := Catalog([], [], [], []);
    }

    method AddSection(k: Section)
      requires Valid()
      requires k.id == |cat.sections| + 1 && HasBenchmark(cat, k.benchmarkId)
      requires k.parentId.Some? ==>
        HasSection(cat, k.parentId.value) && SectionAt(cat, k.parentId.value).benchmarkId == k.benchmarkId
      modifies this
      ensures Valid()
      ensures cat == old(cat).(sections := old(cat.sections) + [k])
    {
      var before := cat;
      cat := cat.(sections := cat.sections + [k]);
      forall i | 0 <= i < |cat.sections| ensures SectionLinked(cat, i) {
        if i < |before.sections| {
          assert SectionLinked(before, i);
        }
      }
    }

    method AddCheck(c: Check)
      requires Valid()
      requires c.id == |cat.checks| + 1 && HasSection(cat, c.sectionId)
      modifies this
      ensures Valid()
      ensures cat == old(cat).(checks := old(cat.checks) + [c])
    {
      var before := cat;
      cat := cat.(checks := cat.checks + [c]);
      forall i | 0 <= i < |cat.sections| ensures SectionLinked(cat, i) {
        assert SectionLinked(before, i);
      }
    }

    /** Adds the check rows of a section's checks, in file order. */
    method AddChecks(sid: nat, cds: seq<CheckData>)
      requires Valid() && HasSection(cat, sid)
      modifies this
      ensures Valid()
      ensures cat == old(cat).(checks := old(cat.checks) + NewChecks(|old(cat.checks)|, sid, cds))
    {
      ghost var start := cat;
      var i := 0;
      while i < |cds|
        invariant 0 <= i <= |cds|
        invariant Valid()
        invariant cat == start.(checks := start.checks + NewChecks(|start.checks|, sid, cds)[..i])
      {
        AddCheck(MakeCheck(|cat.checks| + 1, sid, cds[i], i));
        assert NewChecks(|start.checks|, sid, cds)[..i + 1] == NewChecks(|start.checks|, sid, cds)[..i] + [MakeCheck(|start.checks| + i + 1, sid, cds[i], i)];
        i := i + 1;
      }
      assert NewChecks(|start.checks|, sid, cds)[..i] == NewChecks(|start.checks|, sid, cds);
    }

    /** `_create_section`: adds the section, then its checks in file order
        with their positions as sort orders, then each child's subtree under
        the new section; answers how many checks it added. */
    method CreateSection(benchmarkId: nat, parentId: Option<nat>, d: SectionData, sortOrder: int)
      returns (count: nat)
      requires Valid() && HasBenchmark(cat, benchmarkId)
      requires parentId.Some? ==>
        HasSection(cat, parentId.value) && SectionAt(cat, parentId.value).benchmarkId == benchmarkId
      modifies this
      decreases d
      ensures Valid() && Extends(old(cat), cat)
      ensures count == CheckTotal(d)
      ensures |cat.checks| == |old(cat.checks)| + CheckTotal(d)
      ensures |cat.sections| == |old(cat.sections)| + SectionTotal(d)
      ensures Placed(cat.sections, |old(cat.sections)|, parentId, d, sortOrder)
      ensures RowsOf(cat.sections, |old(cat.sections)|, benchmarkId)
      ensures cat.checks[|old(cat.checks)|..|old(cat.checks)| + |d.checks|] ==
        NewChecks(|old(cat.checks)|, |old(cat.sections)| + 1, d.checks)
      ensures AllPlaced(cat.sections, |old(cat.sections)| + 1, Some(|old(cat.sections)| + 1), d.children, |d.children|, true)
    {
      var sid := |cat.sections| + 1;
      ghost var checkBase := |cat.checks|;
      AddSection(Section(sid, benchmarkId, parentId, d.number, d.title, d.description, sortOrder));
      AddChecks(sid, d.checks);
      ghost var mid := cat;
      assert mid.checks[checkBase..checkBase + |d.checks|] == NewChecks(checkBase, sid, d.checks);
      var more := CreateSubtrees(benchmarkId, Some(sid), d.children, true);
      PrefixSlice(mid.checks, cat.checks, checkBase, checkBase + |d.checks|);
      PlacedExtends(mid.sections, cat.sections, sid - 1, parentId, d, sortOrder);
      assert cat.sections[sid - 1] == mid.sections[sid - 1];
      count := |d.checks| + more;
    }

    /** The loops of `_create_section` over a section's children and of
        `seed_benchmark_file` over the top-level sections: the subtrees are
        created one after the other under `parent`, a child taking its
        position among its siblings as its sort order (`ordered`), a
        top-level section 0. */
    method CreateSubtrees(benchmarkId: nat, parent: Option<nat>, ds: seq<SectionData>, ordered: bool)
      returns (count: nat)
      requires Valid() && HasBenchmark(cat, benchmarkId)
      requires parent.Some? ==>
        HasSection(cat, parent.value) && SectionAt(cat, parent.value).benchmarkId == benchmarkId
      modifies this
      decreases ds
      ensures Valid()
      ensures count == ChecksIn(ds) && |cat.checks| == |old(cat.checks)| + count
      ensures |cat.sections| == |old(cat.sections)| + SectionsIn(ds)
      ensures SubtreesMade(old(cat), cat, benchmarkId, parent, ds, |ds|, ordered)
    {
      ghost var start := cat;
      count := 0;
      var j := 0;
      while j < |ds|
        invariant 0 <= j <= |ds|
        invariant Valid() && SubtreesMade(start, cat, benchmarkId, parent, ds, j, ordered)
        invariant count == ChecksIn(ds[..j])
        invariant parent.Some? ==>
          HasSection(cat, parent.value) && SectionAt(cat, parent.value) == SectionAt(start, parent.value)
      {
        ghost var before := cat;
        var added := CreateSection(benchmarkId, parent, ds[j], if ordered then j else 0);
        SubtreesStep(start, before, cat, benchmarkId, parent, ds, j, ordered);
        count := count + added;
        j := j + 1;
      }
      assert ds[..j] == ds;
    }

    method AddBenchmark(b: Benchmark)
      requires Valid() && b.id == |cat.benchmarks| + 1 && HasPlatform(cat, b.platformId)
      modifies this
      ensures Valid()
      ensures cat == old(cat).(benchmarks := old(cat.benchmarks) + [b])
    {
      var before := cat;
      cat := cat.(benchmarks := cat.benchmarks + [b]);
      forall i | 0 <= i < |cat.sections| ensures SectionLinked(cat, i) {
        assert SectionLinked(before, i);
      }
    }

    /** `seed_benchmark_file` on a parsed file: nothing is created when no
        platform has the file's slug or a benchmark with the same name and
        version exists; otherwise the benchmark is added and then each
        top-level section's subtree, every one with no parent and sort
        order 0, and the number of checks loaded is reported. */
    method SeedBenchmarkFile(data: BenchmarkData) returns (r: SeedOutcome)
      requires Valid()
      modifies this
      ensures Valid()
      ensures r == PlatformMissing <==> FindPlatform(old(cat.platforms), data.platform).None?
      ensures r == AlreadyExists <==>
        FindPlatform(old(cat.platforms), data.platform).Some? && HasNameVersion(old(cat.benchmarks), data.name, data.version)
      ensures !r.Loaded? ==> cat == old(cat)
      ensures r.Loaded? ==>
        && FindPlatform(old(cat.platforms), data.platform).Some?
        && cat.platforms == old(cat.platforms)
        && cat.benchmarks == old(cat.benchmarks) + [Benchmark(|old(cat.benchmarks)| + 1, data.name, data.version,
             FindPlatform(old(cat.platforms), data.platform).value + 1, data.releaseDate, data.description, data.url)]
        && old(cat.sections) <= cat.sections && old(cat.checks) <= cat.checks
        && r.checkCount == ChecksIn(data.sections)
        && |cat.checks| == |old(cat.checks)| + r.checkCount
        && |cat.sections| == |old(cat.sections)| + SectionsIn(data.sections)
        && AllPlaced(cat.sections, |old(cat.sections)|, None, data.sections, |data.sections|, false)
        && RowsOf(cat.sections, |old(cat.sections)|, |cat.benchmarks|)
      ensures r.Loaded? ==> HasNameVersion(cat.benchmarks, data.name, data.version)
    {
      var p := FindPlatform(cat.platforms, data.platform);
      if p.None? {
        return PlatformMissing;
      }
      if HasNameVersion(cat.benchmarks, data.name, data.version) {
        return AlreadyExists;
      }
      var bid := |cat.benchmarks| + 1;
      var platformId := cat.platforms[p.value].id;
      AddBenchmark(Benchmark(bid, data.name, data.version, platformId, data.releaseDate, data.description, data.url));
      assert cat.benchmarks[bid - 1].name == data.name && cat.benchmarks[bid - 1].version == data.version;
      var count := CreateSubtrees(bid, None, data.sections, false);
      r := Loaded(count);
    }

    method AddPlatform(spec: PlatformSpec)
      requires Valid() && FindPlatform(cat.platforms, spec.slug).None?
      modifies this
      ensures Valid()
      ensures cat == old(cat).(platforms := old(cat.platforms) + [MakePlatform(|old(cat.platforms)| + 1, spec)])
    {
      var before := cat;
      cat := cat.(platforms := cat.platforms + [MakePlatform(|cat.platforms| + 1, spec)]);
      forall i | 0 <= i < |cat.sections| ensures SectionLinked(cat, i) {
        assert SectionLinked(before, i);
      }
    }

    /** One turn of `seed_platforms`: the platform is added unless its slug
        is taken; no slug that was taken stops being found. */
    method SeedPlatform(spec: PlatformSpec)
      requires Valid()
      modifies this
      ensures Valid()
      ensures cat.benchmarks == old(cat.benchmarks) && cat.sections == old(cat.sections) && cat.checks == old(cat.checks)
      ensures FindPlatform(old(cat.platforms), spec.slug).Some? ==> cat == old(cat)
      ensures FindPlatform(old(cat.platforms), spec.slug).None? ==>
        cat.platforms == old(cat.platforms) + [MakePlatform(|old(cat.platforms)| + 1, spec)]
      ensures FindPlatform(cat.platforms, spec.slug).Some?
      ensures forall slug :: FindPlatform(old(cat.platforms), slug).Some? ==> FindPlatform(cat.platforms, slug).Some?
      ensures forall k :: |old(cat.platforms)| <= k < |cat.platforms| ==> cat.platforms[k] == MakePlatform(k + 1, spec)
    {
      if FindPlatform(cat.platforms, spec.slug).None? {
        ghost var before := cat.platforms;
        AddPlatform(spec);
        forall slug | FindPlatform(before, slug).Some? ensures FindPlatform(cat.platforms, slug).Some? {
          FindPlatformAppend(before, MakePlatform(|before| + 1, spec), slug);
        }
        FindPlatformAppend(before, MakePlatform(|before| + 1, spec), spec.slug);
      }
    }

    /** `seed_platforms`: each supported platform whose slug is not yet taken
        is added, in list order. Afterwards every supported slug is present,
        so a second run adds nothing. */
    method SeedPlatforms()
      requires Valid()
      modifies this
      ensures Valid()
      ensures cat.benchmarks == old(cat.benchmarks) && cat.sections == old(cat.sections) && cat.checks == old(cat.checks)
      ensures old(cat.platforms) <= cat.platforms
      ensures PlatformsPresent(cat.platforms, DefaultPlatforms, |DefaultPlatforms|)
      ensures PlatformsPresent(old(cat.platforms), DefaultPlatforms, |DefaultPlatforms|) ==> cat == old(cat)
      ensures forall k :: |old(cat.platforms)| <= k < |cat.platforms| ==> MadeFrom(cat.platforms[k], DefaultPlatforms)
    {
      SeedPlatformList(DefaultPlatforms);
    }

    /** The loop of `seed_platforms` over its list of platforms. */
    method SeedPlatformList(specs: seq<PlatformSpec>)
      requires Valid()
      modifies this
      ensures Valid()
      ensures cat.benchmarks == old(cat.benchmarks) && cat.sections == old(cat.sections) && cat.checks == old(cat.checks)
      ensures old(cat.platforms) <= cat.platforms
      ensures PlatformsPresent(cat.platforms, specs, |specs|)
      ensures PlatformsPresent(old(cat.platforms), specs, |specs|) ==> cat == old(cat)
      ensures forall k :: |old(cat.platforms)| <= k < |cat.platforms| ==> MadeFrom(cat.platforms[k], specs)
    {
      ghost var start := cat;
      var i := 0;
      while i < |specs|
        invariant 0 <= i <= |specs|
        invariant Valid()
        invariant cat == start.(platforms := cat.platforms) && start.platforms <= cat.platforms
        invariant PlatformsPresent(cat.platforms, specs, i)
        invariant PlatformsPresent(start.platforms, specs, |specs|) ==> cat == start
        invariant forall k :: |start.platforms| <= k < |cat.platforms| ==> MadeFrom(cat.platforms[k], specs)
      {
        SeedPlatform(specs[i]);
        i := i + 1;
      }
    }
  }

  /** A platform row made from one of the listed platforms. */
  ghost predicate MadeFrom(p: Platform, specs: seq<PlatformSpec>) {
    exists i :: 0 <= i < |specs| && p == MakePlatform(p.id, specs[i])
  }

  /** The platform row made from a supported platform's fields. */
  function MakePlatform(id: nat, spec: PlatformSpec): (p: Platform)
    ensures p.id == id && p.slug == spec.slug && p.name == spec.name
  {
    Platform(id, spec.name, spec.slug, spec.osFamily, spec.icon, spec.description)
  }

  /** One user of the seed file; `displayName` is `None` when the key is absent. */
  datatype UserData = UserData(username: string, password: string, displayName: Option<string>)

  /** The first `n` listed usernames are taken. */
  predicate UsersPresent(users: seq<User>, list: seq<UserData>, n: nat) {
    forall k :: 0 <= k < n && k < |list| ==> FindUser(users, list[k].username).Some?
  }

  /** Row `k` of the users table is the one `seed_users` makes from `d`. */
  predicate SeededRow(u: User, k: nat, d: UserData) {
    u == User(k + 1, d.username, HashPassword(d.password), d.displayName.GetOr(d.username))
  }

  /** Every row past `start` was made from one of the first `n` listed users,
      whose name was not in `start`. */
  predicate AddedFrom(start: seq<User>, users: seq<User>, list: seq<UserData>, n: nat) {
    forall k :: |start| <= k < |users| ==> SeededFrom(start, users[k], k, list, n)
  }

  /** Row `k`, `u`, was made from one of the first `n` listed users, whose
      name was not in `start`. */
  predicate SeededFrom(start: seq<User>, u: User, k: nat, list: seq<UserData>, n: nat) {
    exists j :: 0 <= j < n && j < |list| && FindUser(start, list[j].username).None? && SeededRow(u, k, list[j])
  }

  /** Adding the `i`-th listed user, absent so far, keeps every new row
      accounted for. */
  lemma {:induction false} AddedFromStep(start: seq<User>, before: seq<User>, list: seq<UserData>, i: nat)
    requires i < |list| && start <= before && AddedFrom(start, before, list, i)
    requires FindUser(before, list[i].username).None?
    ensures var d := list[i];
      AddedFrom(start, before + [User(|before| + 1, d.username, HashPassword(d.password), d.displayName.GetOr(d.username))],
                list, i + 1)
  {
    var d := list[i];
    var after := before + [User(|before| + 1, d.username, HashPassword(d.password), d.displayName.GetOr(d.username))];
    assert FindUser(start, d.username).None? by {
      assert forall j :: 0 <= j < |start| ==> start[j] == before[j];
    }
    forall k | |start| <= k < |after| ensures SeededFrom(start, after[k], k, list, i + 1) {
      if k == |before| {
        assert SeededRow(after[k], k, list[i]);
      } else {
        assert SeededFrom(start, before[k], k, list, i);
        var j :| 0 <= j < i && j < |list| && FindUser(start, list[j].username).None? && SeededRow(before[k], k, list[j]);
        assert SeededRow(after[k], k, list[j]);
      }
    }
  }

  /** Skipping a listed user leaves the accounting as it was. */
  lemma {:induction false} AddedFromMore(start: seq<User>, users: seq<User>, list: seq<UserData>, i: nat)
    requires AddedFrom(start, users, list, i)
    ensures AddedFrom(start, users, list, i + 1)
  {
    forall k | |start| <= k < |users| ensures SeededFrom(start, users[k], k, list, i + 1) {
      assert SeededFrom(start, users[k], k, list, i);
      var j :| 0 <= j < i && j < |list| && FindUser(start, list[j].username).None? && SeededRow(users[k], k, list[j]);
    }
  }

  /** Adding the `i`-th listed user keeps the first `i + 1` listed names taken. */
  lemma {:induction false} PresentStep(before: seq<User>, u: User, list: seq<UserData>, i: nat)
    requires i < |list| && UsersPresent(before, list, i) && u.username == list[i].username
    ensures UsersPresent(before + [u], list, i + 1)
  {
    forall k | 0 <= k < i + 1 ensures FindUser(before + [u], list[k].username).Some? {
      FindUserAppend(before, u, list[k].username);
    }
  }

  /** `seed_users`: without a seed file, the default administrator is added
      unless a user called `admin` exists; with one, each listed user whose
      name is not yet taken is added, the display name defaulting to the
      username. Existing users are never changed, and a second run adds
      nobody. */
  method SeedUsers(store: UserStore, file: Option<seq<UserData>>)
    requires store.Valid()
    modifies store
    ensures store.Valid() && old(store.users) <= store.users
    ensures file.None? && FindUser(old(store.users), "admin").None? ==>
      store.users == old(store.users) + [User(|old(store.users)| + 1, "admin", HashPassword("changeme"), "Administrator")]
    ensures file.None? && FindUser(old(store.users), "admin").Some? ==> store.users == old(store.users)
    ensures file.Some? ==> UsersPresent(store.users, file.value, |file.value|)
    ensures file.Some? ==> AddedFrom(old(store.users), store.users, file.value, |file.value|)
    ensures file.Some? && UsersPresent(old(store.users), file.value, |file.value|) ==> store.users == old(store.users)
  {
    if file.None? {
      if FindUser(store.users, "admin").None? {
        store.AddUser("admin", "changeme", "Administrator");
      }
    } else {
      SeedListedUsers(store, file.value);
    }
  }

  /** What the seed file loop keeps after the first `i` listed users: the
      old rows are kept, those users exist, a store that already held every
      listed user is untouched, and each new row was made from a listed user. */
  predicate Seeding(start: seq<User>, users: seq<User>, list: seq<UserData>, i: nat) {
    && start <= users
    && UsersPresent(users, list, i)
    && (UsersPresent(start, list, |list|) ==> users == start)
    && AddedFrom(start, users, list, i)
  }

  /** The loop step that adds the `i`-th listed user. */
  lemma {:induction false} SeedingAdd(start: seq<User>, before: seq<User>, list: seq<UserData>, i: nat)
    requires i < |list| && Seeding(start, before, list, i)
    requires FindUser(before, list[i].username).None?
    ensures var d := list[i];
      Seeding(start, before + [User(|before| + 1, d.username, HashPassword(d.password), d.displayName.GetOr(d.username))],
              list, i + 1)
  {
    var d := list[i];
    var u := User(|before| + 1, d.username, HashPassword(d.password), d.displayName.GetOr(d.username));
    assert !UsersPresent(start, list, |list|) by {
      if UsersPresent(start, list, |list|) {
        assert false;
      }
    }
    PresentStep(before, u, list, i);
    AddedFromStep(start, before, list, i);
  }

  /** The loop step that skips the `i`-th listed user, whose name is taken. */
  lemma {:induction false} SeedingSkip(start: seq<User>, users: seq<User>, list: seq<UserData>, i: nat)
    requires i < |list| && Seeding(start, users, list, i)
    requires FindUser(users, list[i].username).Some?
    ensures Seeding(start, users, list, i + 1)
  {
    AddedFromMore(start, users, list, i);
  }

  /** The seed file loop of `seed_users`. */
  method SeedListedUsers(store: UserStore, list: seq<UserData>)
    requires store.Valid()
    modifies store
    ensures store.Valid() && old(store.users) <= store.users
    ensures UsersPresent(store.users, list, |list|)
    ensures AddedFrom(old(store.users), store.users, list, |list|)
    ensures UsersPresent(old(store.users), list, |list|) ==> store.users == old(store.users)
  {
    ghost var start := store.users;
    var i := 0;
    while i < |list|
      invariant 0 <= i <= |list|
      invariant store.Valid() && Seeding(start, store.users, list, i)
    {
      var data := list[i];
      if FindUser(store.users, data.username).None? {
        SeedingAdd(start, store.users, list, i);
        store.AddUser(data.username, data.password, data.displayName.GetOr(data.username));
      } else {
        SeedingSkip(start, store.users, list, i);
      }
      i := i + 1;
    }
  }
}
