/** The audit handlers (app/routes/audits.py) over a store of sessions and
    results: starting an audit, recording a result, completing a session and
    listing a session's results, each refused to anyone but the session's
    owner. */
module AuditRoutes {
  import opened Wrappers
  import opened Sorting
  import opened Text
  import opened Catalog
  import opened AuditModel

  /** Session ids are positions, a session is in progress or completed, and
      it has a completion time exactly when it is completed. */
  predicate SessionsValid(sessions: seq<AuditSession>) {
    forall i :: 0 <= i < |sessions| ==>
      && sessions[i].id == i + 1
      && (sessions[i].status == InProgress || sessions[i].status == Completed)
      && (sessions[i].completedAt.Some? <==> sessions[i].status == Completed)
  }

  /** A result belongs to an existing session, holds a legal status, and has
      a check time exactly when it has been checked. */
  predicate ResultValid(r: AuditResult, sessionCount: nat) {
    && 1 <= r.sessionId <= sessionCount
    && LegalStatus(r.status)
    && (r.checkedAt.Some? <==> r.status != NotChecked)
  }

  predicate SamePair(a: AuditResult, b: AuditResult) {
    a.sessionId == b.sessionId && a.checkId == b.checkId
  }

  /** `uq_session_check`: no two results share a (session, check) pair. */
  predicate UniquePairs(results: seq<AuditResult>) {
    forall i, j :: 0 <= i < j < |results| ==> !SamePair(results[i], results[j])
  }

  predicate ResultsValid(results: seq<AuditResult>, sessionCount: nat) {
    && (forall i :: 0 <= i < |results| ==> results[i].id == i + 1 && ResultValid(results[i], sessionCount))
    && UniquePairs(results)
  }

  /** Adding a valid result whose pair is new keeps the results valid. */
  lemma {:induction false} AppendResult(results: seq<AuditResult>, n: nat, r: AuditResult)
    requires ResultsValid(results, n) && ResultValid(r, n) && r.id == |results| + 1
    requires forall i :: 0 <= i < |results| ==> !SamePair(results[i], r)
    ensures ResultsValid(results + [r], n)
  {
  }

  /** Index of the first result for (`sessionId`, `checkId`), if any
      (`filter_by(...).first_or_404()`). */
  function FindResult(results: seq<AuditResult>, sessionId: nat, checkId: nat): (r: Option<nat>)
    ensures r.Some? ==>
      && r.value < |results|
      && results[r.value].sessionId == sessionId && results[r.value].checkId == checkId
      && forall i :: 0 <= i < r.value ==> !(results[i].sessionId == sessionId && results[i].checkId == checkId)
    ensures r.None? ==>
      forall i :: 0 <= i < |results| ==> !(results[i].sessionId == sessionId && results[i].checkId == checkId)
  {
    FindResultFrom(results, sessionId, checkId, 0)
  }

  function FindResultFrom(results: seq<AuditResult>, sessionId: nat, checkId: nat, k: nat): (r: Option<nat>)
    requires k <= |results|
    decreases |results| - k
    ensures r.Some? ==>
      && k <= r.value < |results|
      && results[r.value].sessionId == sessionId && results[r.value].checkId == checkId
      && forall i :: k <= i < r.value ==> !(results[i].sessionId == sessionId && results[i].checkId == checkId)
    ensures r.None? ==>
      forall i :: k <= i < |results| ==> !(results[i].sessionId == sessionId && results[i].checkId == checkId)
  {
    if k == |results| then None
    else if results[k].sessionId == sessionId && results[k].checkId == checkId then Some(k)
    else FindResultFrom(results, sessionId, checkId, k + 1)
  }

  /** The result rows `new_audit` adds for `checks`, ids from `firstId` on. */
  function NewResults(firstId: nat, sessionId: nat, checks: seq<Check>): (rs: seq<AuditResult>)
    ensures |rs| == |checks|
    ensures forall x :: x in rs ==> x.sessionId == sessionId
  {
    seq(|checks|, i requires 0 <= i < |checks| => NewResult(firstId + i, sessionId, checks[i].id))
  }

  lemma {:induction false} NewResultsStep(firstId: nat, sessionId: nat, checks: seq<Check>, i: nat)
    requires i < |checks|
    ensures NewResults(firstId, sessionId, checks[..i + 1])
         == NewResults(firstId, sessionId, checks[..i]) + [NewResult(firstId + i, sessionId, checks[i].id)]
  {
  }

  /** Every result `new_audit` creates is unchecked and has no finding, and
      they name the given checks one for one, in order. */
  lemma {:induction false} NewResultsFresh(firstId: nat, sessionId: nat, checks: seq<Check>)
    ensures forall i :: 0 <= i < |checks| ==>
      var r := NewResults(firstId, sessionId, checks)[i];
      r.status == NotChecked && r.finding == "" && r.checkedAt.None?
      && r.sessionId == sessionId && r.checkId == checks[i].id
  {
  }

  /** The rows `new_audit` adds for a fresh session keep the store valid:
      their session is new, so they clash with no earlier row, and their
      checks are distinct, so they clash with no other new row. */
  lemma {:induction false} NewResultsValid(before: seq<AuditResult>, sid: nat, checks: seq<Check>)
    requires sid >= 1 && ResultsValid(before, sid - 1) && IdsIncrease(checks)
    ensures ResultsValid(before + NewResults(|before| + 1, sid, checks), sid)
    decreases |checks|
  {
    var f := |before| + 1;
    if checks == [] {
      assert before + NewResults(f, sid, checks) == before;
    } else {
      var n := |checks| - 1;
      var init := checks[..n];
      assert IdsIncrease(init);
      NewResultsValid(before, sid, init);
      var rows := before + NewResults(f, sid, init);
      var last := NewResult(f + n, sid, checks[n].id);
      forall j | 0 <= j < |rows| ensures !SamePair(rows[j], last) {
        if j >= |before| {
          assert rows[j] == NewResults(f, sid, init)[j - |before|];
          assert rows[j].checkId == checks[j - |before|].id;
        }
      }
      AppendResult(rows, sid, last);
      assert checks[..n + 1] == checks;
      NewResultsStep(f, sid, checks, n);
      assert rows + [last] == before + NewResults(f, sid, checks);
    }
  }

  /** Adding a fresh in-progress session and one new result per check of
      distinct checks keeps the store valid. */
  lemma {:induction false} NewAuditValid(sessions: seq<AuditSession>, results: seq<AuditResult>,
                                         s: AuditSession, checks: seq<Check>)
    requires SessionsValid(sessions) && ResultsValid(results, |sessions|) && IdsIncrease(checks)
    requires s.id == |sessions| + 1 && s.status == InProgress && s.completedAt.None?
    ensures SessionsValid(sessions + [s])
    ensures ResultsValid(results + NewResults(|results| + 1, s.id, checks), |sessions| + 1)
  {
    NewResultsValid(results, s.id, checks);
  }

  /** The stripped target name, or "Unnamed Target" when nothing is left. */
  function TargetOrDefault(raw: string): (name: string)
    ensures name != []
    ensures Strip(raw) != [] ==> name == Strip(raw)
    ensures Strip(raw) == [] ==> name == "Unnamed Target"
  {
    var name := Strip(raw);
    if name == [] then "Unnamed Target" else name
  }

  /** The results of a session that `new_audit` has just created are exactly
      the rows it added: one unchecked result per check, in check order. */
  lemma {:induction false} NewSessionResults(before: seq<AuditResult>, sid: nat, checks: seq<Check>)
    requires sid >= 1 && ResultsValid(before, sid - 1)
    ensures Filter(before + NewResults(|before| + 1, sid, checks), (x: AuditResult) => x.sessionId == sid)
         == NewResults(|before| + 1, sid, checks)
  {
    var p := (x: AuditResult) => x.sessionId == sid;
    var added := NewResults(|before| + 1, sid, checks);
    FilterAppend(before, added, p);
    assert forall x :: x in before ==> !p(x);
    FilterExtremes(before, p);
    FilterExtremes(added, p);
  }

  /** No session that was completed is in progress again. */
  predicate NeverReopens(before: seq<AuditSession>, after: seq<AuditSession>) {
    && |before| <= |after|
    && forall i :: 0 <= i < |before| && before[i].status == Completed ==> after[i].status == Completed
  }

  /** What `new_audit` answers to a submitted form. */
  datatype NewAuditOutcome =
    | ChooseBenchmark                            // no benchmark chosen: the form again
    | BenchmarkNotFound                          // HTTP 404
    | Created(sessionId: nat, checkCount: nat)   // the new session and its size

  class AuditStore {
    var sessions: seq<AuditSession>
    var results: seq<AuditResult>

    predicate Valid()
      reads this
    {
      SessionsValid(sessions) && ResultsValid(results, |sessions|)
    }

    constructor ()
      ensures Valid() && sessions == [] && results == []
    {
      sessions := [];
      results := [];
    }

    predicate HasSession(id: nat)
      reads this
    {
      1 <= id <= |sessions|
    }

    /** `new_audit` on a submitted form. The form fields arrive as text (an
        absent field as the empty string); `benchmarkId` is the field read
        as an integer, `None` when it is absent or not a number. */
    method NewAudit(cat: Catalog, userId: nat, benchmarkId: Option<int>,
                    targetName: string, targetIp: string, notes: string, now: DateTime)
      returns (r: NewAuditOutcome)
      requires Valid() && WellFormed(cat)
      modifies this
      ensures Valid()
      ensures (benchmarkId.None? || benchmarkId.value == 0) ==>
        r == ChooseBenchmark && sessions == old(sessions) && results == old(results)
      ensures benchmarkId.Some? && benchmarkId.value != 0 && !(benchmarkId.value > 0 && HasBenchmark(cat, benchmarkId.value)) ==>
        r == BenchmarkNotFound && sessions == old(sessions) && results == old(results)
      ensures benchmarkId.Some? && benchmarkId.value > 0 && HasBenchmark(cat, benchmarkId.value) ==>
        var b := benchmarkId.value;
        var sid := |old(sessions)| + 1;
        && r == Created(sid, |BenchmarkChecks(cat, b)|)
        && sessions == old(sessions) + [NewSession(sid, userId, b, TargetOrDefault(targetName), Strip(targetIp), Strip(notes), now)]
        && results == old(results) + NewResults(|old(results)| + 1, sid, BenchmarkChecks(cat, b))
    {
      var ip := Strip(targetIp);
      var note := Strip(notes);
      if benchmarkId.None? || benchmarkId.value == 0 {
        return ChooseBenchmark;
      }
      var b := benchmarkId.value;
      if !(b > 0 && HasBenchmark(cat, b)) {
        return BenchmarkNotFound;
      }
      var count := StartAudit(cat, userId, b, TargetOrDefault(targetName), ip, note, now);
      r := Created(|sessions|, count);
    }

    /** The part of `new_audit` that writes: the session is added, in
        progress, and then one unchecked result per check of the benchmark. */
    method StartAudit(cat: Catalog, userId: nat, b: nat, name: string, ip: string, note: string, now: DateTime)
      returns (count: nat)
      requires Valid() && WellFormed(cat)
      modifies this
      ensures Valid()
      ensures count == |BenchmarkChecks(cat, b)|
      ensures sessions == old(sessions) + [NewSession(|old(sessions)| + 1, userId, b, name, ip, note, now)]
      ensures results == old(results) + NewResults(|old(results)| + 1, |old(sessions)| + 1, BenchmarkChecks(cat, b))
    {
      var sid := |sessions| + 1;
      var session := NewSession(sid, userId, b, name, ip, note, now);
      var checks := BenchmarkChecks(cat, b);
      BenchmarkChecksIncrease(cat, b);
      NewAuditValid(sessions, results, session, checks);
      sessions := sessions + [session];
      AddResults(sid, checks);
      count := |checks|;
    }

    /** The loop of `new_audit` that adds one unchecked result per check. */
    method AddResults(sid: nat, checks: seq<Check>)
      modifies this
      ensures sessions == old(sessions)
      ensures results == old(results) + NewResults(|old(results)| + 1, sid, checks)
    {
      for i := 0 to |checks|
        invariant sessions == old(sessions)
        invariant results == old(results) + NewResults(|old(results)| + 1, sid, checks[..i])
      {
        NewResultsStep(|old(results)| + 1, sid, checks, i);
        results := results + [NewResult(|results| + 1, sid, checks[i].id)];
      }
      assert checks[..|checks|] == checks;
    }

    /** `update_result`: 404 for an unknown session, 403 for someone else's,
        404 when the session has no result for the check; otherwise the
        status (`not_checked` when the form has none) is recorded with the
        stripped finding and the check time, but only if it is one of the
        four legal statuses. `Ok(true)` says the result was written. */
    method UpdateResult(userId: nat, sessionId: nat, checkId: nat,
                        status: Option<string>, finding: string, now: DateTime)
      returns (r: Response<bool>)
      requires Valid()
      modifies this
      ensures Valid()
      ensures sessions == old(sessions) && NeverReopens(old(sessions), sessions)
      ensures r.NotFound? <==>
        !HasSession(sessionId) ||
        (sessions[sessionId - 1].userId == userId && FindResult(old(results), sessionId, checkId).None?)
      ensures r.Forbidden? <==> HasSession(sessionId) && sessions[sessionId - 1].userId != userId
      ensures r.Ok? ==>
        var i := FindResult(old(results), sessionId, checkId).value;
        var st := status.GetOr(NotChecked);
        && r.value == LegalStatus(st)
        && (r.value ==> results == old(results)[i := old(results)[i].(
              status := st, finding := Strip(finding),
              checkedAt := if st != NotChecked then Some(now) else None)])
      ensures !(r.Ok? && r.value) ==> results == old(results)
    {
      if !HasSession(sessionId) {
        return NotFound;
      }
      if sessions[sessionId - 1].userId != userId {
        return Forbidden;
      }
      var found := FindResult(results, sessionId, checkId);
      if found.None? {
        return NotFound;
      }
      var i := found.value;
      var st := status.GetOr(NotChecked);
      var text := Strip(finding);
      if LegalStatus(st) {
        var old_ := results[i];
        var updated := old_.(status := st, finding := text,
                             checkedAt := if st != NotChecked then Some(now) else None);
        assert forall j :: 0 <= j < |results| ==> (SamePair(results[j], old_) <==> SamePair(results[j], updated));
        results := results[i := updated];
        r := Ok(true);
      } else {
        r := Ok(false);
      }
    }

    /** `complete_session`: 404 for an unknown session, 403 for someone
        else's; otherwise the session is marked completed now. */
    method CompleteSession(userId: nat, sessionId: nat, now: DateTime) returns (r: Response<()>)
      requires Valid()
      modifies this
      ensures Valid()
      ensures results == old(results) && |sessions| == |old(sessions)|
      ensures NeverReopens(old(sessions), sessions)
      ensures r.NotFound? <==> !HasSession(sessionId)
      ensures r.Forbidden? <==> HasSession(sessionId) && sessions[sessionId - 1].userId != userId
      ensures r.Ok? ==>
        HasSession(sessionId) &&
        sessions == old(sessions)[sessionId - 1 := old(sessions)[sessionId - 1].(
          status := Completed, completedAt := Some(now))]
      ensures !r.Ok? ==> sessions == old(sessions)
    {
      if !HasSession(sessionId) {
        return NotFound;
      }
      if sessions[sessionId - 1].userId != userId {
        return Forbidden;
      }
      var s := sessions[sessionId - 1];
      sessions := sessions[sessionId - 1 := s.(status := Completed, completedAt := Some(now))];
      r := Ok(());
    }

    /** `session_detail`: 404 for an unknown session, 403 for someone else's,
        else the session's results ordered by check number. */
    function SessionDetail(cat: Catalog, userId: nat, sessionId: nat): (r: Response<seq<AuditResult>>)
      reads this
      ensures r.NotFound? <==> !HasSession(sessionId)
      ensures r.Forbidden? <==> HasSession(sessionId) && sessions[sessionId - 1].userId != userId
      ensures r.Ok? ==>
        && (forall x :: x in r.value <==> x in results && x.sessionId == sessionId && HasCheck(cat, x.checkId))
        && Sorted(r.value, ByCheckNumber(cat))
    {
      if !HasSession(sessionId) then NotFound
      else if sessions[sessionId - 1].userId != userId then Forbidden
      else Ok(SessionResults(cat, results, sessionId))
    }
  }
}
