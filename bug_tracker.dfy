/** The bug tracker of src/bug_tracker.py: bug lookups and the
    AND-combined search, the status update with its date stamps and comment
    history, and `BugTracker`, whose methods insert and update rows of the
    bugs table and count them for the report. */
module Bugs {
  import opened Wrappers
  import opened Calendar
  import opened Schema
  import opened Listing
  import opened Store
  import Text

  /** `ORDER BY reported_date DESC` sorts on this key. */
  function ReportedKey(b: Bug): int
  {
    Instant(b.reportedDate)
  }

  // ----- lookups and search -----

  /** `get_bug`: the row with that id, if there is one. */
  function GetBug(bugs: map<int, Bug>, id: int): (r: Option<Bug>)
    ensures r.Some? <==> id in bugs
    ensures r.Some? ==> r.value == bugs[id]
  {
    if id in bugs then Some(bugs[id]) else None
  }

  /** `get_all_bugs`: every bug, or (when a status is given) the bugs whose
      stored status is that text, newest report first. */
  function GetAllBugs(bugs: map<int, Bug>, status: string): (r: seq<Bug>)
    ensures multiset(r) == multiset(Filter(Rows(bugs), (b: Bug) => status == "" || b.status.Name() == status))
    ensures NewestFirst(r, ReportedKey)
    ensures forall i :: 0 <= i < |r| ==> r[i] in bugs.Values && (status == "" || r[i].status.Name() == status)
    ensures forall id :: id in bugs && (status == "" || bugs[id].status.Name() == status) ==> bugs[id] in r
  {
    OrderedRows(bugs, (b: Bug) => status == "" || b.status.Name() == status, ReportedKey)
  }

  /** The keyword arguments `search_bugs` recognises; a present key is a
      filter, whatever its value, and any other key is ignored. */
  datatype BugFilter = BugFilter(
    titleContains: Option<string>,
    descriptionContains: Option<string>,
    severity: Option<string>,
    moduleName: Option<string>,
    status: Option<string>,
    reportedAfter: Option<DateTime>,
    reportedBefore: Option<DateTime>)

  const NoBugFilter := BugFilter(None, None, None, None, None, None, None)

  /** Every present filter holds (`AND`). A `module = ?` test never holds
      for a bug without a module (SQL `NULL`). */
  predicate BugMatches(f: BugFilter, b: Bug)
  {
    && (f.titleContains.Some? ==> Text.LikeContains(b.title, f.titleContains.value))
    && (f.descriptionContains.Some? ==> Text.LikeContains(b.description, f.descriptionContains.value))
    && (f.severity.Some? ==> b.severity.Name() == f.severity.value)
    && (f.moduleName.Some? ==> b.moduleName == f.moduleName)
    && (f.status.Some? ==> b.status.Name() == f.status.value)
    && (f.reportedAfter.Some? ==> ReportedKey(b) >= Instant(f.reportedAfter.value))
    && (f.reportedBefore.Some? ==> ReportedKey(b) <= Instant(f.reportedBefore.value))
  }

  /** `search_bugs`: exactly the bugs matching every filter, newest report
      first. */
  function SearchBugs(bugs: map<int, Bug>, f: BugFilter): (r: seq<Bug>)
    ensures multiset(r) == multiset(Filter(Rows(bugs), (b: Bug) => BugMatches(f, b)))
    ensures NewestFirst(r, ReportedKey)
    ensures forall i :: 0 <= i < |r| ==> r[i] in bugs.Values && BugMatches(f, r[i])
    ensures forall id :: id in bugs && BugMatches(f, bugs[id]) ==> bugs[id] in r
  {
    OrderedRows(bugs, (b: Bug) => BugMatches(f, b), ReportedKey)
  }

  /** With no recognised filter, the search lists every bug, as
      `get_all_bugs` does without a status. */
  lemma SearchWithoutBugFilters(bugs: map<int, Bug>)
    ensures SearchBugs(bugs, NoBugFilter) == GetAllBugs(bugs, "")
  {
    FilterSame(Rows(bugs), (b: Bug) => BugMatches(NoBugFilter, b), (b: Bug) => "" == "" || b.status.Name() == "");
  }

  // ----- status updates -----

  /** The comment entry `update_bug_status` writes:
      `[<timestamp>] Status changed to <STATUS>: <comment>`. */
  function StatusEntry(now: DateTime, newStatus: string, comment: string): string
    requires ValidDateTime(now)
  {
    "[" + Format(now) + "] Status changed to " + Text.ToUpper(newStatus) + ": " + comment
  }

  /** The comments after one entry is added: the old comments, a blank
      line, then the entry; just the entry when there were none. Old
      comments are never lost or altered. */
  function AppendComment(existing: Option<string>, entry: string): (r: string)
    ensures existing.Some? && existing.value != "" ==>
      && existing.value + "\n\n" <= r
      && r[|existing.value| + 2..] == entry
    ensures !(existing.Some? && existing.value != "") ==> r == entry
  {
    if existing.Some? && existing.value != "" then existing.value + "\n\n" + entry else entry
  }

  /** The row after `update_bug_status` to a status: the status and
      `last_updated` change; `fixed_date` (`closed_date`) is stamped only on
      a change to `fixed` (`closed`) from another status; a non-empty
      comment adds an entry; nothing else changes. */
  function StatusUpdated(bug: Bug, status: BugStatus, comment: string, now: DateTime): (r: Bug)
    requires ValidDateTime(now)
    ensures r.status == status && r.lastUpdated == now
    ensures r.fixedDate == (if status == Fixed && bug.status != Fixed then Some(now) else bug.fixedDate)
    ensures r.closedDate == (if status == Closed && bug.status != Closed then Some(now) else bug.closedDate)
    ensures comment == "" ==> r.comments == bug.comments
    ensures comment != "" ==> r.comments == Some(AppendComment(bug.comments, StatusEntry(now, status.Name(), comment)))
    ensures r.(status := bug.status, lastUpdated := bug.lastUpdated, fixedDate := bug.fixedDate,
               closedDate := bug.closedDate, comments := bug.comments) == bug
  {
    var fixedDate := if status == Fixed && bug.status != Fixed then Some(now) else bug.fixedDate;
    var closedDate := if status == Closed && bug.status != Closed then Some(now) else bug.closedDate;
    var comments :=
      if comment != "" then Some(AppendComment(bug.comments, StatusEntry(now, status.Name(), comment)))
      else bug.comments;
    bug.(status := status, lastUpdated := now, fixedDate := fixedDate, closedDate := closedDate,
         comments := comments)
  }

  /** A second update to `fixed` keeps the date of the first: the fix date
      records when the bug was first marked fixed, however often it is
      marked again. */
  lemma RepeatedFixKeepsDate(bug: Bug, c1: string, t1: DateTime, c2: string, t2: DateTime)
    requires ValidDateTime(t1) && ValidDateTime(t2) && bug.status != Fixed
    ensures StatusUpdated(StatusUpdated(bug, Fixed, c1, t1), Fixed, c2, t2).fixedDate == Some(t1)
  {
  }

  /** Comments accumulate: after two commented updates the first update's
      comments are a prefix of the second's. */
  lemma CommentsOnlyGrow(bug: Bug, s1: BugStatus, c1: string, t1: DateTime, s2: BugStatus, c2: string, t2: DateTime)
    requires ValidDateTime(t1) && ValidDateTime(t2) && c1 != "" && c2 != ""
    ensures var first := StatusUpdated(bug, s1, c1, t1);
      var second := StatusUpdated(first, s2, c2, t2);
      && first.comments.Some? && second.comments.Some?
      && first.comments.value <= second.comments.value
  {
    var first := StatusUpdated(bug, s1, c1, t1);
    var entry := StatusEntry(t1, s1.Name(), c1);
    assert first.comments.value != "" by {
      if bug.comments.Some? && bug.comments.value != "" {
        assert |first.comments.value| >= |bug.comments.value| + 2;
      } else {
        assert first.comments.value == entry;
        assert entry[0] == '[';
      }
    }
  }

  // ----- the report -----

  /** The names `generate_bug_report` counts under. */
  const SeverityNames: set<string> := {"critical", "high", "medium", "low"}
  const StatusNames: set<string> := {"open", "in_progress", "fixed", "closed", "reopened"}

  function SeverityName(b: Bug): string { b.severity.Name() }

  function StatusName(b: Bug): string { b.status.Name() }

  /** `bug.get('module') or 'unknown'`. */
  function ModuleKey(b: Bug): string
  {
    if b.moduleName.Some? && b.moduleName.value != "" then b.moduleName.value else "unknown"
  }

  /** How many of the bugs have `name` under `key`. */
  function CountBy(bugs: seq<Bug>, key: Bug -> string, name: string): nat
  {
    if |bugs| == 0 then 0
    else CountBy(bugs[..|bugs| - 1], key, name) + (if key(bugs[|bugs| - 1]) == name then 1 else 0)
  }

  /** Every bug has one of the four severities, so the severity counts add
      up to the number of bugs. */
  lemma {:induction false} SeverityCountsCover(bugs: seq<Bug>)
    ensures CountBy(bugs, SeverityName, "critical") + CountBy(bugs, SeverityName, "high")
          + CountBy(bugs, SeverityName, "medium") + CountBy(bugs, SeverityName, "low") == |bugs|
  {
    if |bugs| > 0 {
      SeverityCountsCover(bugs[..|bugs| - 1]);
    }
  }

  /** Every bug has one of the five statuses, so the status counts add up to
      the number of bugs. */
  lemma {:induction false} StatusCountsCover(bugs: seq<Bug>)
    ensures CountBy(bugs, StatusName, "open") + CountBy(bugs, StatusName, "in_progress")
          + CountBy(bugs, StatusName, "fixed") + CountBy(bugs, StatusName, "closed")
          + CountBy(bugs, StatusName, "reopened") == |bugs|
  {
    if |bugs| > 0 {
      StatusCountsCover(bugs[..|bugs| - 1]);
    }
  }

  /** The bugs `generate_bug_report` reads, as written: without
      `include_closed` it searches with `status_not='closed'`, a key the
      search does not recognise, so closed bugs are not excluded. */
  function ReportBugsAsWritten(bugs: map<int, Bug>, includeClosed: bool): seq<Bug>
  {
    if !includeClosed then SearchBugs(bugs, NoBugFilter) else GetAllBugs(bugs, "")
  }

  /** A closed bug still appears in a report that should leave closed bugs
      out. */
  lemma ClosedBugStillReported()
    ensures var when := DateTime(2024, 1, 2, 3, 4, 5, 0);
      var closed := Bug(1, "Crash", "Crashes on start", High, None, None, Closed, when, when, None,
                        Some(when), None);
      closed in ReportBugsAsWritten(map[1 := closed], false)
  {
  }

  /** The bugs the report is evidently meant to read: every bug, or every
      bug that is not closed when closed bugs are excluded; newest report
      first. */
  function ReportBugs(bugs: map<int, Bug>, includeClosed: bool): (r: seq<Bug>)
    ensures multiset(r) == multiset(Filter(Rows(bugs), (b: Bug) => includeClosed || b.status != Closed))
    ensures NewestFirst(r, ReportedKey)
    ensures forall i :: 0 <= i < |r| ==> r[i] in bugs.Values && (includeClosed || r[i].status != Closed)
    ensures forall id :: id in bugs && (includeClosed || bugs[id].status != Closed) ==> bugs[id] in r
  {
    OrderedRows(bugs, (b: Bug) => includeClosed || b.status != Closed, ReportedKey)
  }

  datatype BugReport = BugReport(
    generatedAt: DateTime,
    totalBugs: nat,
    severityBreakdown: map<string, nat>,
    statusBreakdown: map<string, nat>,
    moduleBreakdown: map<string, nat>,
    bugs: seq<Bug>)

  class BugTracker {
    const db: Database

    constructor (db: Database)
      ensures this.db == db
    {
      this.db := db;
    }

    /** `report_bug`: the severity must be one of the four; the new bug has
        the next id, status `open`, and `reported_date == last_updated`. */
    method ReportBug(title: string, description: string, severity: string, moduleName: Option<string>,
                     stepsToReproduce: Option<string>, now: DateTime) returns (r: Result<Bug>)
      requires db.Valid()
      modifies db`bugs, db`nextBugId
      ensures db.Valid()
      ensures ParseSeverity(severity).None? ==> r == Err(InvalidSeverity)
      ensures r.Err? ==> db.bugs == old(db.bugs) && db.nextBugId == old(db.nextBugId)
      ensures ParseSeverity(severity).Some? ==>
        && r == Ok(Bug(old(db.nextBugId), title, description, ParseSeverity(severity).value, moduleName,
                       stepsToReproduce, Open, now, now, None, None, None))
        && db.bugs == old(db.bugs)[r.value.id := r.value]
        && db.nextBugId == old(db.nextBugId) + 1
        && GetBug(db.bugs, r.value.id) == Some(r.value)
    {
      var parsed := ParseSeverity(severity);
      if parsed.None? {
        return Err(InvalidSeverity);
      }
      var bug := Bug(db.nextBugId, title, description, parsed.value, moduleName, stepsToReproduce, Open,
                     now, now, None, None, None);
      db.bugs := db.bugs[bug.id := bug];
      db.nextBugId := db.nextBugId + 1;
      r := Ok(bug);
    }

    /** `update_bug_status`: the status must be one of the five, then the bug
        must exist; the row becomes `StatusUpdated`. */
    method UpdateBugStatus(bugId: int, newStatus: string, comment: string, now: DateTime) returns (r: Result<Bug>)
      requires db.Valid() && ValidDateTime(now)
      modifies db`bugs
      ensures db.Valid()
      ensures ParseBugStatus(newStatus).None? ==> r == Err(InvalidBugStatus)
      ensures ParseBugStatus(newStatus).Some? && bugId !in old(db.bugs) ==> r == Err(BugNotFound(bugId))
      ensures ParseBugStatus(newStatus).Some? && bugId in old(db.bugs) ==> r.Ok?
      ensures r.Err? ==> db.bugs == old(db.bugs)
      ensures r.Ok? ==>
        && bugId in old(db.bugs)
        && r.value == StatusUpdated(old(db.bugs)[bugId], ParseBugStatus(newStatus).value, comment, now)
        && db.bugs == old(db.bugs)[bugId := r.value]
    {
      var parsed := ParseBugStatus(newStatus);
      if parsed.None? {
        return Err(InvalidBugStatus);
      }
      if bugId !in db.bugs {
        return Err(BugNotFound(bugId));
      }
      var updated := StatusUpdated(db.bugs[bugId], parsed.value, comment, now);
      db.bugs := db.bugs[bugId := updated];
      r := Ok(updated);
    }

    /** `generate_bug_report`: the bugs read (see `ReportBugs`), their number,
        and three breakdowns counted in loops: by severity and by status
        (each bug once, under its stored name) and by module (a bug without
        a module under `unknown`). The module counts are exactly the modules
        that occur and add up to the number of bugs. */
    method GenerateBugReport(includeClosed: bool, now: DateTime) returns (report: BugReport)
      ensures report.generatedAt == now
      ensures report.bugs == ReportBugs(db.bugs, includeClosed)
      ensures report.totalBugs == |report.bugs|
      ensures report.severityBreakdown.Keys == SeverityNames
      ensures forall name :: name in report.severityBreakdown ==>
        report.severityBreakdown[name] == CountBy(report.bugs, SeverityName, name)
      ensures report.statusBreakdown.Keys == StatusNames
      ensures forall name :: name in report.statusBreakdown ==>
        report.statusBreakdown[name] == CountBy(report.bugs, StatusName, name)
      ensures report.moduleBreakdown.Keys == ModulesOf(report.bugs)
      ensures forall name :: name in report.moduleBreakdown ==>
        report.moduleBreakdown[name] == CountBy(report.bugs, ModuleKey, name)
      ensures MapTotal(report.severityBreakdown) == report.totalBugs
      ensures MapTotal(report.statusBreakdown) == report.totalBugs
      ensures MapTotal(report.moduleBreakdown) == report.totalBugs
    {
      var bugs := ReportBugs(db.bugs, includeClosed);
      var severityCounts := CountSeverities(bugs);
      var statusCounts := CountStatuses(bugs);
      var moduleCounts := CountModules(bugs);
      report := BugReport(now, |bugs|, severityCounts, statusCounts, moduleCounts, bugs);
    }
  }

  /** The counters are right for `bugs`: each one holds how many bugs have
      its name, and together they count every bug. */
  ghost predicate Tallied(bugs: seq<Bug>, key: Bug -> string, counts: map<string, nat>)
  {
    && (forall name :: name in counts ==> counts[name] == CountBy(bugs, key, name))
    && MapTotal(counts) == |bugs|
  }

  /** The severity loop of `generate_bug_report`: a counter per severity,
      starting at zero, bumped for each bug under its severity; the counters
      add up to the number of bugs. */
  method CountSeverities(bugs: seq<Bug>) returns (counts: map<string, nat>)
    ensures counts.Keys == SeverityNames
    ensures forall name :: name in counts ==> counts[name] == CountBy(bugs, SeverityName, name)
    ensures MapTotal(counts) == |bugs|
  {
    counts := map["critical" := 0, "high" := 0, "medium" := 0, "low" := 0];
    ZerosTallied(bugs[..0], SeverityName, counts);
    var i := 0;
    while i < |bugs|
      invariant 0 <= i <= |bugs|
      invariant counts.Keys == SeverityNames
      invariant Tallied(bugs[..i], SeverityName, counts)
    {
      var name := SeverityName(bugs[i]);
      SeverityNamed(bugs[i].severity);
      if name in counts {
        CounterStep(bugs, i, SeverityName, counts);
        counts := counts[name := counts[name] + 1];
      }
      i := i + 1;
    }
    assert bugs[..|bugs|] == bugs;
  }

  /** The status loop of `generate_bug_report`, likewise over the five
      statuses. */
  method CountStatuses(bugs: seq<Bug>) returns (counts: map<string, nat>)
    ensures counts.Keys == StatusNames
    ensures forall name :: name in counts ==> counts[name] == CountBy(bugs, StatusName, name)
    ensures MapTotal(counts) == |bugs|
  {
    counts := map["open" := 0, "in_progress" := 0, "fixed" := 0, "closed" := 0, "reopened" := 0];
    ZerosTallied(bugs[..0], StatusName, counts);
    var i := 0;
    while i < |bugs|
      invariant 0 <= i <= |bugs|
      invariant counts.Keys == StatusNames
      invariant Tallied(bugs[..i], StatusName, counts)
    {
      var name := StatusName(bugs[i]);
      StatusNamed(bugs[i].status);
      if name in counts {
        CounterStep(bugs, i, StatusName, counts);
        counts := counts[name := counts[name] + 1];
      }
      i := i + 1;
    }
    assert bugs[..|bugs|] == bugs;
  }

  /** The module loop of `generate_bug_report`: a counter for each module
      that occurs (`unknown` for a bug without one), created at its first
      bug; the counters add up to the number of bugs. */
  method CountModules(bugs: seq<Bug>) returns (counts: map<string, nat>)
    ensures counts.Keys == ModulesOf(bugs)
    ensures forall name :: name in counts ==> counts[name] == CountBy(bugs, ModuleKey, name)
    ensures MapTotal(counts) == |bugs|
  {
    counts := map[];
    ZerosTallied(bugs[..0], ModuleKey, counts);
    var i := 0;
    while i < |bugs|
      invariant 0 <= i <= |bugs|
      invariant counts.Keys == ModulesOf(bugs[..i])
      invariant Tallied(bugs[..i], ModuleKey, counts)
    {
      var name := ModuleKey(bugs[i]);
      ModuleStep(bugs, i, counts);
      if name in counts {
        counts := counts[name := counts[name] + 1];
      } else {
        counts := counts[name := 1];
      }
      i := i + 1;
    }
    assert bugs[..|bugs|] == bugs;
  }

  /** Before any bug, counters that all start at zero are right. */
  lemma ZerosTallied(none: seq<Bug>, key: Bug -> string, counts: map<string, nat>)
    requires |none| == 0
    requires forall name :: name in counts ==> counts[name] == 0
    ensures Tallied(none, key, counts)
  {
    MapTotalZero(counts);
  }

  /** One turn of the module loop keeps its counters right: the bug's
      module gains a counter at one or its counter goes up by one. */
  lemma ModuleStep(bugs: seq<Bug>, i: int, counts: map<string, nat>)
    requires 0 <= i < |bugs|
    requires counts.Keys == ModulesOf(bugs[..i]) && Tallied(bugs[..i], ModuleKey, counts)
    ensures var name := ModuleKey(bugs[i]);
      var next := counts[name := if name in counts then counts[name] + 1 else 1];
      next.Keys == ModulesOf(bugs[..i + 1]) && Tallied(bugs[..i + 1], ModuleKey, next)
  {
    var name := ModuleKey(bugs[i]);
    assert bugs[..i + 1][..i] == bugs[..i];
    assert ModulesOf(bugs[..i + 1]) == ModulesOf(bugs[..i]) + {name};
    if name !in counts {
      UnseenCountsZero(bugs[..i], name);
    }
    forall other | other in ModulesOf(bugs[..i + 1])
      ensures CountBy(bugs[..i + 1], ModuleKey, other) == CountBy(bugs[..i], ModuleKey, other) + (if name == other then 1 else 0)
    {
      CountStep(bugs, i, ModuleKey, other);
    }
    MapTotalSet(counts, name, if name in counts then counts[name] + 1 else 1);
  }

  /** One turn of a counting loop whose counters are all in place: the
      bug's counter goes up by one, so every counter stays right and the
      total grows by one. */
  lemma CounterStep(bugs: seq<Bug>, i: int, key: Bug -> string, counts: map<string, nat>)
    requires 0 <= i < |bugs|
    requires Tallied(bugs[..i], key, counts) && key(bugs[i]) in counts
    ensures var next := counts[key(bugs[i]) := counts[key(bugs[i])] + 1];
      next.Keys == counts.Keys && Tallied(bugs[..i + 1], key, next)
  {
    var bumped := key(bugs[i]);
    MapTotalSet(counts, bumped, counts[bumped] + 1);
    forall name | name in counts
      ensures CountBy(bugs[..i + 1], key, name) == CountBy(bugs[..i], key, name) + (if bumped == name then 1 else 0)
    {
      CountStep(bugs, i, key, name);
    }
  }

  /** Counting one more bug adds one for its own name only. */
  lemma CountStep(bugs: seq<Bug>, i: int, key: Bug -> string, name: string)
    requires 0 <= i < |bugs|
    ensures CountBy(bugs[..i + 1], key, name) == CountBy(bugs[..i], key, name) + (if key(bugs[i]) == name then 1 else 0)
  {
    assert bugs[..i + 1][..i] == bugs[..i];
  }

  /** Every severity's name is a severity counter. */
  lemma SeverityNamed(s: Severity)
    ensures s.Name() in SeverityNames
  {
    match s
    case Low =>
    case Medium =>
    case High =>
    case Critical =>
  }

  /** Every status's name is a status counter. */
  lemma StatusNamed(s: BugStatus)
    ensures s.Name() in StatusNames
  {
    match s
    case Open =>
    case InProgress =>
    case Fixed =>
    case Closed =>
    case Reopened =>
  }

  /** The module names the bugs are counted under (see `ModulesOfOccur`). */
  function ModulesOf(bugs: seq<Bug>): set<string>
  {
    if |bugs| == 0 then {} else ModulesOf(bugs[..|bugs| - 1]) + {ModuleKey(bugs[|bugs| - 1])}
  }

  /** A name is among the modules exactly when some bug has it. */
  lemma {:induction false} ModulesOfOccur(bugs: seq<Bug>)
    ensures forall name :: name in ModulesOf(bugs) <==> exists j :: 0 <= j < |bugs| && ModuleKey(bugs[j]) == name
  {
    if |bugs| > 0 {
      var init := bugs[..|bugs| - 1];
      ModulesOfOccur(init);
      forall name | name in ModulesOf(bugs)
        ensures exists j :: 0 <= j < |bugs| && ModuleKey(bugs[j]) == name
      {
        if name in ModulesOf(init) {
          var j :| 0 <= j < |init| && ModuleKey(init[j]) == name;
          assert bugs[j] == init[j];
        }
      }
      forall name | exists j :: 0 <= j < |bugs| && ModuleKey(bugs[j]) == name
        ensures name in ModulesOf(bugs)
      {
        var j :| 0 <= j < |bugs| && ModuleKey(bugs[j]) == name;
        if j < |init| {
          assert init[j] == bugs[j];
        }
      }
    }
  }

  /** A module no bug has is counted zero times. */
  lemma {:induction false} UnseenCountsZero(bugs: seq<Bug>, name: string)
    requires name !in ModulesOf(bugs)
    ensures CountBy(bugs, ModuleKey, name) == 0
  {
    if |bugs| > 0 {
      UnseenCountsZero(bugs[..|bugs| - 1], name);
    }
  }
}
