/** Audit sessions and their per-check results (app/models/audit.py), and the
    statistics computed from a session's results: the status counts, the
    progress percentage, and the checked count and compliance rate of the
    summary sheet (app/utils/excel_export.py). */
module AuditModel {
  import opened Wrappers
  import opened Sorting
  import opened Text
  import opened Catalog

  /** A wall-clock instant, as far as the application looks at one: it is
      read from the clock, stored, and printed as a date. */
  datatype DateTime = DateTime(year: nat, month: nat, day: nat, hour: nat, minute: nat)

  /** `%m`, `%d`, `%H` and `%M`: two digits, zero-padded. */
  function Pad2(n: nat): (r: string)
    ensures n < 100 ==> |r| == 2
    ensures forall i :: 0 <= i < |r| ==> IsDigit(r[i])
  {
    NatToStringDigits(n);
    if n < 10 then "0" + NatToString(n) else NatToString(n)
  }

  /** `strftime('%Y-%m-%d %H:%M UTC')`. */
  function FormatDateTime(d: DateTime): string {
    NatToString(d.year) + "-" + Pad2(d.month) + "-" + Pad2(d.day) + " " +
    Pad2(d.hour) + ":" + Pad2(d.minute) + " UTC"
  }

  /** `strftime('%Y%m%d')`: digits only, and eight of them for a four-digit
      year (`%Y` does not pad a shorter year). */
  function DateStamp(d: DateTime): (r: string)
    ensures forall i :: 0 <= i < |r| ==> IsDigit(r[i])
    ensures 1000 <= d.year <= 9999 && d.month < 100 && d.day < 100 ==> |r| == 8
  {
    NatToStringDigits(d.year);
    var y, m, dd := NatToString(d.year), Pad2(d.month), Pad2(d.day);
    assert forall i :: 0 <= i < |y + m + dd| ==> (y + m + dd)[i] in y || (y + m + dd)[i] in m || (y + m + dd)[i] in dd;
    y + m + dd
  }

  /** The statuses a result may hold. */
  const Pass := "pass"
  const Fail := "fail"
  const NotApplicable := "not_applicable"
  const NotChecked := "not_checked"

  /** The statuses a session may hold. */
  const InProgress := "in_progress"
  const Completed := "completed"

  predicate LegalStatus(status: string) {
    status == Pass || status == Fail || status == NotApplicable || status == NotChecked
  }

  datatype AuditSession = AuditSession(
    id: nat, userId: nat, benchmarkId: nat,
    targetName: string, targetIp: string,
    startedAt: DateTime, completedAt: Option<DateTime>,
    status: string, notes: string)

  datatype AuditResult = AuditResult(
    id: nat, sessionId: nat, checkId: nat,
    status: string, finding: string, checkedAt: Option<DateTime>)

  /** A session row as the store creates it: column defaults filled in. */
  function NewSession(id: nat, userId: nat, benchmarkId: nat, targetName: string,
                      targetIp: string, notes: string, now: DateTime): (s: AuditSession)
    ensures s.status == InProgress && s.completedAt == None && s.startedAt == now
    ensures s.id == id && s.userId == userId && s.benchmarkId == benchmarkId
    ensures s.targetName == targetName && s.targetIp == targetIp && s.notes == notes
  {
    AuditSession(id, userId, benchmarkId, targetName, targetIp, now, None, InProgress, notes)
  }

  /** A result row as the store creates it: not yet checked, no finding. */
  function NewResult(id: nat, sessionId: nat, checkId: nat): (r: AuditResult)
    ensures r.status == NotChecked && r.checkedAt == None && r.finding == ""
    ensures r.id == id && r.sessionId == sessionId && r.checkId == checkId
  {
    AuditResult(id, sessionId, checkId, NotChecked, "", None)
  }

  /** Number of results whose status is exactly `status`. */
  function CountStatus(rs: seq<AuditResult>, status: string): nat {
    if rs == [] then 0
    else CountStatus(rs[..|rs| - 1], status) + (if rs[|rs| - 1].status == status then 1 else 0)
  }

  /** Number of results whose status is anything but `not_checked`. */
  function CountChecked(rs: seq<AuditResult>): nat {
    if rs == [] then 0
    else CountChecked(rs[..|rs| - 1]) + (if rs[|rs| - 1].status != NotChecked then 1 else 0)
  }

  /** `pass_count`, `fail_count`, `na_count`. */
  function PassCount(rs: seq<AuditResult>): nat { CountStatus(rs, Pass) }
  function FailCount(rs: seq<AuditResult>): nat { CountStatus(rs, Fail) }
  function NaCount(rs: seq<AuditResult>): nat { CountStatus(rs, NotApplicable) }

  /** No status is counted more often than there are results, and a count is
      zero exactly when no result has that status. */
  lemma {:induction false} CountStatusBounds(rs: seq<AuditResult>, status: string)
    ensures CountStatus(rs, status) <= |rs|
    ensures CountStatus(rs, status) == 0 <==> forall i :: 0 <= i < |rs| ==> rs[i].status != status
    ensures CountStatus(rs, status) == |rs| <==> forall i :: 0 <= i < |rs| ==> rs[i].status == status
  {
    if rs != [] {
      var init := rs[..|rs| - 1];
      CountStatusBounds(init, status);
      assert forall i :: 0 <= i < |init| ==> init[i] == rs[i];
    }
  }

  /** The checked results are the ones that are not `not_checked`: the
      summary's `checked = total - not_checked`. */
  lemma {:induction false} CheckedIsTotalMinusNotChecked(rs: seq<AuditResult>)
    ensures CountChecked(rs) + CountStatus(rs, NotChecked) == |rs|
  {
    if rs != [] {
      CheckedIsTotalMinusNotChecked(rs[..|rs| - 1]);
    }
  }

  /** Pass, fail and not-applicable results are all checked ones, so together
      they never exceed the number of results. */
  lemma {:induction false} CountsWithinChecked(rs: seq<AuditResult>)
    ensures PassCount(rs) + FailCount(rs) + NaCount(rs) <= CountChecked(rs) <= |rs|
  {
    if rs != [] {
      CountsWithinChecked(rs[..|rs| - 1]);
    }
  }

  /** When every status is one of the four legal ones, the four counts
      partition the results. */
  lemma {:induction false} CountsPartition(rs: seq<AuditResult>)
    requires forall i :: 0 <= i < |rs| ==> LegalStatus(rs[i].status)
    ensures PassCount(rs) + FailCount(rs) + NaCount(rs) + CountStatus(rs, NotChecked) == |rs|
  {
    if rs != [] {
      var init := rs[..|rs| - 1];
      assert forall i :: 0 <= i < |init| ==> init[i] == rs[i];
      CountsPartition(init);
    }
  }

  /** `AuditSession.progress`: 0 without results, else the checked share as a
      whole percentage, rounded down. */
  function Progress(rs: seq<AuditResult>): (p: nat)
    ensures rs == [] ==> p == 0
  {
    if |rs| == 0 then 0 else (CountChecked(rs) * 100) / |rs|
  }

  /** Progress is a percentage, and it is 100 exactly when every result has
      been checked. */
  lemma {:induction false} ProgressBounds(rs: seq<AuditResult>)
    ensures Progress(rs) <= 100
    ensures rs != [] ==> (Progress(rs) == 100 <==> CountChecked(rs) == |rs|)
  {
    CountsWithinChecked(rs);
    if rs != [] {
      PercentBounds(CountChecked(rs), |rs|);
    }
  }

  /** Integer percentage of `part` in `whole`. */
  lemma {:induction false} PercentBounds(part: nat, whole: nat)
    requires 0 < whole && part <= whole
    ensures (part * 100) / whole <= 100
    ensures (part * 100) / whole == 100 <==> part == whole
  {
    var q := (part * 100) / whole;
    var r := (part * 100) % whole;
    assert part * 100 == q * whole + r && 0 <= r < whole;
    if q >= 100 {
      assert q * whole >= 100 * whole by {
        MulMonotone(100, q, whole);
      }
      assert part == whole;
    }
    if part == whole {
      assert part * 100 == 100 * whole + 0;
    }
  }

  lemma {:induction false} MulMonotone(a: nat, b: nat, n: nat)
    requires a <= b
    ensures a * n <= b * n
  {
  }

  /** The summary's compliance rate: passes over checked results, 0 when
      nothing has been checked. */
  function Compliance(passed: nat, checked: nat): (rate: real)
    ensures checked == 0 ==> rate == 0.0
    ensures passed <= checked ==> 0.0 <= rate <= 1.0
  {
    if checked > 0 then passed as real / checked as real else 0.0
  }

  /** The number of the check a result is about (the join with the checks
      table); a result whose check is gone has none. */
  function CheckNumberOf(cat: Catalog, r: AuditResult): string {
    if HasCheck(cat, r.checkId) then CheckAt(cat, r.checkId).number else ""
  }

  /** `order_by(Check.check_number)` on results. */
  function ByCheckNumber(cat: Catalog): (AuditResult, AuditResult) -> bool {
    (a: AuditResult, b: AuditResult) => LexLe(CheckNumberOf(cat, a), CheckNumberOf(cat, b))
  }

  lemma {:induction false} ByCheckNumberTotalPreorder(cat: Catalog)
    ensures TotalPreorder(ByCheckNumber(cat))
  {
    LexLeTotalPreorder();
  }

  /** A session's results joined with their checks and ordered by check number,
      as the session page and the audit export list them. */
  function SessionResults(cat: Catalog, rs: seq<AuditResult>, sessionId: nat): (r: seq<AuditResult>)
    ensures forall x :: x in r <==> x in rs && x.sessionId == sessionId && HasCheck(cat, x.checkId)
    ensures Sorted(r, ByCheckNumber(cat))
  {
    ByCheckNumberTotalPreorder(cat);
    SortBy(Filter(rs, (x: AuditResult) => x.sessionId == sessionId && HasCheck(cat, x.checkId)), ByCheckNumber(cat))
  }
}
