/** The check pages (app/routes/checks.py): one check with its place in the
    section tree, and the search over all checks. The search matches with
    SQL `ILIKE`, which the store (SQLite) runs as `lower(x) LIKE lower(y)`:
    `%` stands for any run of characters, `_` for any one character, and
    there is no escape character. */
module CheckRoutes {
  import opened Wrappers
  import opened Sorting
  import opened Text
  import opened Catalog
  import opened BenchmarkRoutes

  // ---------------------------------------------------------------------
  // A check and its breadcrumb

  datatype CheckView = CheckView(check: Check, section: Section, benchmark: Benchmark, breadcrumb: seq<Section>)

  /** `detail`: 404 for an unknown check; otherwise the check, its section,
      its benchmark, and the sections from the top of the tree down to the
      check's own section. */
  method CheckDetail(cat: Catalog, checkId: nat) returns (r: Response<CheckView>)
    requires WellFormed(cat)
    ensures r.NotFound? <==> !HasCheck(cat, checkId)
    ensures !r.Forbidden?
    ensures r.Ok? ==>
      && HasCheck(cat, checkId)
      && var c := CheckAt(cat, checkId);
      && HasSection(cat, c.sectionId)
      && var k := SectionAt(cat, c.sectionId);
      && HasBenchmark(cat, k.benchmarkId)
      && r.value == CheckView(c, k, BenchmarkAt(cat, k.benchmarkId), Ancestors(cat, c.sectionId))
    ensures r.Ok? ==>
      && r.value.breadcrumb != []
      && r.value.breadcrumb[|r.value.breadcrumb| - 1] == r.value.section
      && r.value.breadcrumb[0].parentId.None?
  {
    if !HasCheck(cat, checkId) {
      return NotFound;
    }
    var check := CheckAt(cat, checkId);
    assert cat.checks[checkId - 1] == check;
    var section := SectionAt(cat, check.sectionId);
    assert SectionLinked(cat, check.sectionId - 1);
    var benchmark := BenchmarkAt(cat, section.benchmarkId);
    var breadcrumb := BuildBreadcrumb(cat, check.sectionId);
    r := Ok(CheckView(check, section, benchmark, breadcrumb));
  }

  // ---------------------------------------------------------------------
  // LIKE patterns

  /** SQL `LIKE` without an escape character: does `s` match pattern `p`? */
  predicate Like(s: string, p: string)
    decreases |s| + |p|
  {
    if p == [] then s == []
    else if p[0] == '%' then Like(s, p[1..]) || (s != [] && Like(s[1..], p))
    else s != [] && (p[0] == '_' || s[0] == p[0]) && Like(s[1..], p[1..])
  }

  /** A pattern with no wildcard in it: every character stands for itself. */
  predicate Literal(q: string) {
    forall i :: 0 <= i < |q| ==> q[i] != '%' && q[i] != '_'
  }

  /** `q` occurs in `s` starting at position `i`. */
  predicate OccursAt(q: string, s: string, i: nat) {
    i + |q| <= |s| && s[i..i + |q|] == q
  }

  /** `q` occurs in `s` as a contiguous piece. */
  ghost predicate Occurs(q: string, s: string) {
    exists i: nat :: OccursAt(q, s, i)
  }

  /** `%` alone matches every string. */
  lemma {:induction false} LikeAnything(s: string)
    ensures Like(s, "%")
    decreases |s|
  {
    if s != [] {
      LikeAnything(s[1..]);
    }
  }

  /** A leading `%` skips any prefix of `s`: the rest of the pattern must match
      some suffix. */
  lemma {:induction false} LikeLeadingPercent(s: string, r: string)
    ensures Like(s, "%" + r) <==> exists i :: 0 <= i <= |s| && Like(s[i..], r)
    decreases |s|
  {
    var p := "%" + r;
    assert p[1..] == r;
    if s == [] {
      assert s[0..] == s;
    } else {
      LikeLeadingPercent(s[1..], r);
      if Like(s, p) {
        if Like(s, r) {
          assert s[0..] == s;
        } else {
          var i :| 0 <= i <= |s[1..]| && Like(s[1..][i..], r);
          assert s[1..][i..] == s[i + 1..];
        }
      }
      if exists i :: 0 <= i <= |s| && Like(s[i..], r) {
        var i :| 0 <= i <= |s| && Like(s[i..], r);
        if i == 0 {
          assert s[0..] == s;
        } else {
          assert s[1..][i - 1..] == s[i..];
        }
      }
    }
  }

  /** A literal head of a pattern matches exactly itself. */
  lemma {:induction false} LikeLiteralHead(s: string, q: string, rest: string)
    requires Literal(q)
    ensures Like(s, q + rest) <==> |q| <= |s| && s[..|q|] == q && Like(s[|q|..], rest)
    decreases |q|
  {
    if q == [] {
      assert q + rest == rest;
      assert s[0..] == s;
    } else {
      assert (q + rest)[0] == q[0];
      assert (q + rest)[1..] == q[1..] + rest;
      LikeLiteralHead(if s == [] then s else s[1..], q[1..], rest);
      if s != [] && |q| <= |s| {
        assert s[1..][|q| - 1..] == s[|q|..];
        assert s[..|q|] == [s[0]] + s[1..][..|q| - 1];
      }
    }
  }

  /** A pattern without wildcards matches only itself. */
  lemma {:induction false} LikeLiteral(s: string, q: string)
    requires Literal(q)
    ensures Like(s, q) <==> s == q
  {
    LikeLiteralHead(s, q, []);
    assert q + [] == q;
  }

  /** The search pattern `%q%` for a literal `q` matches exactly the strings
      that contain `q`. */
  lemma {:induction false} LikeContains(s: string, q: string)
    requires Literal(q)
    ensures Like(s, "%" + q + "%") <==> Occurs(q, s)
  {
    var r := q + "%";
    assert "%" + q + "%" == "%" + r;
    LikeLeadingPercent(s, r);
    if Like(s, "%" + r) {
      var i :| 0 <= i <= |s| && Like(s[i..], r);
      LikeLiteralHead(s[i..], q, "%");
      assert s[i..][..|q|] == s[i..i + |q|];
      assert OccursAt(q, s, i);
    }
    if Occurs(q, s) {
      var i: nat :| OccursAt(q, s, i);
      assert s[i..][..|q|] == s[i..i + |q|];
      LikeAnything(s[i..][|q|..]);
      LikeLiteralHead(s[i..], q, "%");
    }
  }

  lemma {:induction false} LowerAppend(a: string, b: string)
    ensures Lower(a + b) == Lower(a) + Lower(b)
  {
  }

  /** Case folding leaves `%` and `_` where they are and makes no new ones. */
  lemma {:induction false} LowerLiteral(q: string)
    requires Literal(q)
    ensures Literal(Lower(q))
  {
  }

  /** `ILIKE`: both sides lower-cased, then `LIKE`. */
  predicate ILike(s: string, p: string) {
    Like(Lower(s), Lower(p))
  }

  /** `ILIKE '%q%'` for a literal `q` is a case-insensitive substring test. */
  lemma {:induction false} ILikeContains(s: string, q: string)
    requires Literal(q)
    ensures ILike(s, "%" + q + "%") <==> Occurs(Lower(q), Lower(s))
  {
    LowerAppend("%" + q, "%");
    LowerAppend("%", q);
    assert Lower("%") == "%";
    LowerLiteral(q);
    LikeContains(Lower(s), Lower(q));
  }

  // ---------------------------------------------------------------------
  // The search

  /** The query-string arguments, absent ones as the empty string. */
  datatype SearchArgs = SearchArgs(q: string, platform: string, level: string, scored: string)

  /** The text filter: `q` in the title, number, description or audit command. */
  predicate TextMatches(c: Check, q: string) {
    var pattern := "%" + q + "%";
    ILike(c.title, pattern) || ILike(c.number, pattern) ||
    ILike(c.description, pattern) || ILike(c.auditCommand, pattern)
  }

  /** The slug of the platform a check belongs to, when the joins reach one. */
  function PlatformSlugOf(cat: Catalog, c: Check): Option<string> {
    if HasSection(cat, c.sectionId) && HasBenchmark(cat, SectionAt(cat, c.sectionId).benchmarkId)
       && HasPlatform(cat, BenchmarkAt(cat, SectionAt(cat, c.sectionId).benchmarkId).platformId)
    then Some(PlatformAt(cat, BenchmarkAt(cat, SectionAt(cat, c.sectionId).benchmarkId).platformId).slug)
    else None
  }

  /** Whether `search` keeps a check: it is joined to its section and its
      benchmark, the stripped query (when there is one) matches its text, its
      platform has the slug asked for (when one is), and only the values
      "1"/"2" of `level` and "true"/"false" of `scored` filter. */
  predicate SearchKeeps(cat: Catalog, q: string, args: SearchArgs, c: Check) {
    && HasSection(cat, c.sectionId) && HasBenchmark(cat, SectionAt(cat, c.sectionId).benchmarkId)
    && (q == [] || TextMatches(c, q))
    && (args.platform == [] || PlatformSlugOf(cat, c) == Some(args.platform))
    && (args.level == "1" ==> c.level == 1)
    && (args.level == "2" ==> c.level == 2)
    && (args.scored == "true" ==> c.scored)
    && (args.scored == "false" ==> !c.scored)
  }

  const SearchLimit := 50

  /** The checks `search` lists: the kept ones ordered by check number, at
      most 50 of them. */
  function SearchChecks(cat: Catalog, args: SearchArgs): (r: seq<Check>)
    ensures |r| <= SearchLimit
    ensures Sorted(r, ChecksByNumber)
    ensures forall c :: c in r ==> c in cat.checks && SearchKeeps(cat, Strip(args.q), args, c)
    ensures |r| < SearchLimit ==>
      forall c :: c in cat.checks && SearchKeeps(cat, Strip(args.q), args, c) ==> c in r
  {
    ChecksByNumberTotalPreorder();
    var q := Strip(args.q);
    var kept := Filter(cat.checks, (c: Check) => SearchKeeps(cat, q, args, c));
    var r := SortAndLimit(kept, ChecksByNumber, SearchLimit);
    assert |r| < SearchLimit ==> r == SortBy(kept, ChecksByNumber);
    r
  }

  /** When the limit cuts the list short, every check left out comes after
      every check shown in check-number order. */
  lemma {:induction false} SearchOmitsOnlyLater(cat: Catalog, args: SearchArgs, c: Check)
    requires c in cat.checks && SearchKeeps(cat, Strip(args.q), args, c)
    requires c !in SearchChecks(cat, args)
    ensures |SearchChecks(cat, args)| == SearchLimit
    ensures forall x :: x in SearchChecks(cat, args) ==> LexLe(x.number, c.number)
  {
    ChecksByNumberTotalPreorder();
    var q := Strip(args.q);
    var kept := Filter(cat.checks, (c: Check) => SearchKeeps(cat, q, args, c));
    SortAndLimitOmitted(kept, ChecksByNumber, SearchLimit, c);
  }

  /** For a query without wildcards, the text filter is a case-insensitive
      substring test on the four searched columns. */
  lemma {:induction false} TextMatchesIff(c: Check, q: string)
    requires Literal(q)
    ensures TextMatches(c, q) <==>
      || Occurs(Lower(q), Lower(c.title)) || Occurs(Lower(q), Lower(c.number))
      || Occurs(Lower(q), Lower(c.description)) || Occurs(Lower(q), Lower(c.auditCommand))
  {
    ILikeContains(c.title, q);
    ILikeContains(c.number, q);
    ILikeContains(c.description, q);
    ILikeContains(c.auditCommand, q);
  }

  /** An empty query, no platform and no recognised level or scored value
      keep every check. */
  lemma {:induction false} SearchUnfiltered(cat: Catalog, args: SearchArgs, c: Check)
    requires WellFormed(cat) && c in cat.checks
    requires Strip(args.q) == [] && args.platform == []
    requires args.level != "1" && args.level != "2" && args.scored != "true" && args.scored != "false"
    ensures SearchKeeps(cat, Strip(args.q), args, c)
  {
    CheckRow(cat, c);
    assert SectionLinked(cat, c.sectionId - 1);
  }

  /** `order_by(Platform.name)`. */
  predicate PlatformsByName(a: Platform, b: Platform) { LexLe(a.name, b.name) }

  /** The two answers of `search`: the result list alone for an HTMX request,
      else the full page with the platform choices and the arguments echoed. */
  datatype SearchView =
    | Partial(checks: seq<Check>, query: string)
    | FullPage(checks: seq<Check>, query: string, platforms: seq<Platform>,
               selectedPlatform: string, selectedLevel: string, selectedScored: string)

  function Search(cat: Catalog, args: SearchArgs, htmx: bool): (v: SearchView)
    ensures v.checks == SearchChecks(cat, args) && v.query == Strip(args.q)
    ensures v.Partial? <==> htmx
    ensures v.FullPage? ==>
      && (forall p :: p in v.platforms <==> p in cat.platforms)
      && |v.platforms| == |cat.platforms|
      && Sorted(v.platforms, PlatformsByName)
      && v.selectedPlatform == args.platform && v.selectedLevel == args.level
      && v.selectedScored == args.scored
  {
    var checks := SearchChecks(cat, args);
    var q := Strip(args.q);
    if htmx then Partial(checks, q)
    else
      LexLeTotalPreorder();
      FullPage(checks, q, SortBy(cat.platforms, PlatformsByName), args.platform, args.level, args.scored)
  }
}
