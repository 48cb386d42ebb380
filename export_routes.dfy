/** The download handlers (app/routes/export.py): they find the benchmark
    or the session, read the filters from the query string, build the
    workbook and name the file. */
module ExportRoutes {
  import opened Wrappers
  import opened Text
  import opened Catalog
  import opened AuditModel
  import opened AuditRoutes
  import opened AuthRoutes
  import opened ExcelExport

  // ---------------------------------------------------------------------
  // Query-string arguments

  predicate AllDigits(s: string) {
    forall i :: 0 <= i < |s| ==> IsDigit(s[i])
  }

  /** The value of a string of decimal digits. */
  function DigitsValue(s: string): nat
    requires AllDigits(s)
  {
    if s == [] then 0 else DigitsValue(s[..|s| - 1]) * 10 + (s[|s| - 1] as int - '0' as int)
  }

  /** `int(s)` on an optionally signed run of ASCII digits; anything else is
      refused. */
  function ParseInt(s: string): (r: Option<int>)
    ensures r.Some? ==> s != []
  {
    if s == [] then None
    else if s[0] == '-' || s[0] == '+' then
      var digits := s[1..];
      if digits != [] && AllDigits(digits) then
        var v: int := DigitsValue(digits);
        Some(if s[0] == '-' then -v else v)
      else None
    else if AllDigits(s) then Some(DigitsValue(s))
    else None
  }

  /** Reading back a rendered natural number gives the number. */
  lemma {:induction false} DigitsValueOfRendering(n: nat)
    ensures AllDigits(NatToString(n)) && DigitsValue(NatToString(n)) == n
    decreases n
  {
    NatToStringDigits(n);
    if n >= 10 {
      DigitsValueOfRendering(n / 10);
      var s := NatToString(n);
      assert s[..|s| - 1] == NatToString(n / 10);
    }
  }

  /** Parsing what `str(n)` prints gives `n` back, for every integer. */
  lemma {:induction false} ParseIntRoundTrip(n: int)
    ensures ParseInt(IntToString(n)) == Some(n)
  {
    var m: nat := if n < 0 then -n else n;
    DigitsValueOfRendering(m);
    var s := IntToString(n);
    if n < 0 {
      assert s[1..] == NatToString(m);
    } else {
      assert IsDigit(s[0]);
    }
  }

  /** `request.args.get(name, type=int)`: absent, or not a number, reads as `None`. */
  function IntArg(arg: Option<string>): (r: Option<int>)
    ensures arg.None? ==> r.None?
    ensures arg.Some? ==> r == ParseInt(arg.value)
  {
    match arg
    case None => None
    case Some(s) => ParseInt(s)
  }

  // ---------------------------------------------------------------------
  // File names

  /** `CIS_Checklist_{slug}_{version}.xlsx`. */
  function ChecklistFilename(slug: string, version: string): string {
    "CIS_Checklist_" + slug + "_" + version + ".xlsx"
  }

  /** The target part of an audit report's name: the target with its spaces
      turned into underscores, or `audit` when there is no target. */
  function TargetPart(targetName: string): (r: string)
    ensures r != []
    ensures forall i :: 0 <= i < |r| ==> r[i] != ' '
    ensures targetName == [] ==> r == "audit"
    ensures targetName != [] ==> |r| == |targetName|
    ensures targetName != [] ==>
      forall i :: 0 <= i < |r| ==> r[i] == (if targetName[i] == ' ' then '_' else targetName[i])
  {
    if targetName != [] then ReplaceChar(targetName, ' ', '_') else "audit"
  }

  /** `Audit_Report_{target}_{started:%Y%m%d}.xlsx`. */
  function AuditFilename(targetName: string, startedAt: DateTime): string {
    "Audit_Report_" + TargetPart(targetName) + "_" + DateStamp(startedAt) + ".xlsx"
  }

  /** The audit report's file name holds no space, whatever the target is
      called. */
  lemma {:induction false} AuditFilenameHasNoSpace(targetName: string, startedAt: DateTime)
    ensures forall i :: 0 <= i < |AuditFilename(targetName, startedAt)| ==>
      AuditFilename(targetName, startedAt)[i] != ' '
  {
    var t, d := TargetPart(targetName), DateStamp(startedAt);
    var name := AuditFilename(targetName, startedAt);
    forall i | 0 <= i < |name| ensures name[i] != ' ' {
      if 13 <= i < 13 + |t| {
        assert name[i] == t[i - 13];
      } else if 14 + |t| <= i < 14 + |t| + |d| {
        assert name[i] == d[i - 14 - |t|];
      }
    }
  }

  // ---------------------------------------------------------------------
  // The handlers

  datatype BenchmarkDownload = BenchmarkDownload(filename: string, workbook: BenchmarkWorkbook)

  /** `export_benchmark`: 404 for an unknown benchmark; otherwise its
      checklist, filtered by the `level` and `scored_only` arguments, under
      a name made of the platform's slug and the benchmark's version. */
  method ExportBenchmark(cat: Catalog, b: nat, levelArg: Option<string>, scoredOnlyArg: Option<string>,
                         now: DateTime)
    returns (r: Response<BenchmarkDownload>)
    requires WellFormed(cat)
    ensures r.NotFound? <==> !HasBenchmark(cat, b)
    ensures !r.Forbidden?
    ensures r.Ok? ==>
      && HasBenchmark(cat, b)
      && var bench := BenchmarkAt(cat, b);
      && HasPlatform(cat, bench.platformId)
      && r.value.filename == ChecklistFilename(PlatformAt(cat, bench.platformId).slug, bench.version)
      && r.value.workbook.cover == Cover(bench.name, LabelledCells(BenchmarkCoverFields(cat, b, now), 3))
      && r.value.workbook.checklist.rows ==
           ChecklistRows(ChecklistChecks(cat, b, IntArg(levelArg), scoredOnlyArg == Some("true")))
      && r.value.workbook.checklist.validation ==
           Some(Validation(1, |ChecklistChecks(cat, b, IntArg(levelArg), scoredOnlyArg == Some("true"))| + 1, StatusChoices))
  {
    if !HasBenchmark(cat, b) {
      return NotFound;
    }
    var bench := BenchmarkAt(cat, b);
    assert cat.benchmarks[b - 1] == bench;
    var level := IntArg(levelArg);
    var scoredOnly := scoredOnlyArg.GetOr("false") == "true";
    var workbook := ExportBenchmarkToExcel(cat, b, level, scoredOnly, now);
    var filename := ChecklistFilename(PlatformAt(cat, bench.platformId).slug, bench.version);
    r := Ok(BenchmarkDownload(filename, workbook));
  }

  datatype AuditDownload = AuditDownload(filename: string, workbook: AuditWorkbook)

  /** Every session's benchmark is in the catalog (the foreign key). */
  predicate SessionsInCatalog(cat: Catalog, sessions: seq<AuditSession>) {
    forall i :: 0 <= i < |sessions| ==> HasBenchmark(cat, sessions[i].benchmarkId)
  }

  /** `export_audit`: 404 for an unknown session, 403 for someone else's;
      otherwise the report on exactly the results the session page lists,
      with the current user, who owns the session, as the auditor. */
  method ExportAudit(cat: Catalog, store: AuditStore, sessionId: nat, currentUser: User)
    returns (r: Response<AuditDownload>)
    requires WellFormed(cat) && store.Valid() && SessionsInCatalog(cat, store.sessions)
    ensures r.NotFound? <==> !store.HasSession(sessionId)
    ensures r.Forbidden? <==>
      store.HasSession(sessionId) && store.sessions[sessionId - 1].userId != currentUser.id
    ensures r.Ok? <==> store.SessionDetail(cat, currentUser.id, sessionId).Ok?
    ensures r.Ok? ==>
      && store.HasSession(sessionId)
      && var session := store.sessions[sessionId - 1];
      && var results := SessionResults(cat, store.results, sessionId);
      && ChecksKnown(cat, results)
      && r.value.filename == AuditFilename(session.targetName, session.startedAt)
      && IsAuditReport(cat, session, currentUser, results, r.value.workbook)
  {
    ghost var detail := store.SessionDetail(cat, currentUser.id, sessionId);
    if !store.HasSession(sessionId) {
      assert detail == NotFound;
      return NotFound;
    }
    var session := store.sessions[sessionId - 1];
    if session.userId != currentUser.id {
      assert detail == Forbidden;
      return Forbidden;
    }
    assert detail == Ok(SessionResults(cat, store.results, sessionId));
    assert session.id == sessionId;
    ghost var results := SessionResults(cat, store.results, sessionId);
    var workbook := ExportAuditToExcel(cat, store.results, session, currentUser);
    var filename := AuditFilename(session.targetName, session.startedAt);
    r := Ok(AuditDownload(filename, workbook));
  }
}
