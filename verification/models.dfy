/**
 The records of the daily-report application (report/models.py): a daily
 report owned by an optional user, and the timed work entries under it.

 Persistence, primary keys other than the user's, and the `created_at` /
 `updated_at` timestamps are not part of this model. Dates and times are
 pre-formatted: each carries an integer used for ordering and the text that
 Python's `str()` would produce for it.
 */
module Models {
  import opened Ordering

  datatype Option<+T> = None | Some(value: T)

  /** Text shown in place of a missing owner's name. */
  const Unset := "未設定"

  /** An account. Two users are the same user when their primary keys agree. */
  datatype User = User(id: int, username: string, isSuperuser: bool)

  /** A calendar date: `ordinal` orders dates, `text` is its printed form. */
  datatype Date = Date(ordinal: int, text: string)

  /** A time of day: `secondOfDay` orders times, `text` is its printed form. */
  datatype Time = Time(secondOfDay: int, text: string)

  /**
   One work entry of a report (DailyReportDetail).

   The CSV export reads `client` and `responsiblePerson` from a detail, but the
   model class in report/models.py does not declare these fields; they are
   modelled here as optional text so that the export can be stated. The
   detail field `remarks` named by the admin inline is declared nowhere and is
   not modelled.
   */
  datatype Detail = Detail(
    startTime: Time,
    endTime: Time,
    workTitle: Option<string>,
    workDetail: Option<string>,
    client: Option<string>,
    responsiblePerson: Option<string>)

  /** One user's report for one date (DailyReport), with its details. */
  datatype Report = Report(
    user: Option<User>,
    date: Date,
    bossConfirmation: bool,
    remarks: Option<string>,
    comment: Option<string>,
    isSubmitted: bool,
    details: seq<Detail>)

  /** `r` is owned by `u`: the report's user has `u`'s primary key. */
  predicate OwnedBy(r: Report, u: User) {
    r.user.Some? && r.user.value.id == u.id
  }

  /** A freshly created report: both status flags take their declared defaults. */
  function NewReport(user: Option<User>, date: Date): (r: Report)
    ensures !r.bossConfirmation && !r.isSubmitted
    ensures r.user == user && r.date == date
    ensures r.remarks.None? && r.comment.None? && |r.details| == 0
  {
    Report(user, date, false, None, None, false, [])
  }

  /** Display string of a report: the date, a dash, and the owner's name. */
  function ReportStr(r: Report): (s: string)
    ensures |s| >= |r.date.text| + 3 && s[..|r.date.text|] == r.date.text
    ensures s[|r.date.text|..|r.date.text| + 3] == " - "
    ensures r.user.None? ==> s[|r.date.text| + 3..] == Unset
    ensures r.user.Some? ==> s[|r.date.text| + 3..] == r.user.value.username
  {
    r.date.text + " - " + (if r.user.Some? then r.user.value.username else Unset)
  }

  /** Display string of a detail: always empty. */
  function DetailStr(d: Detail): (s: string)
    ensures |s| == 0
  {
    ""
  }

  /** Sort key of `Meta.ordering = ['-date']`: later dates first. */
  function LatestFirst(r: Report): int {
    -r.date.ordinal
  }

  /** Sort key of `Meta.ordering = ['start_time']`: earlier starts first. */
  function EarliestFirst(d: Detail): int {
    d.startTime.secondOfDay
  }

  /** Reports in their default order: a permutation with dates non-increasing. */
  function ReportOrder(rs: seq<Report>): (o: seq<Report>)
    ensures multiset(o) == multiset(rs) && |o| == |rs|
    ensures forall i, j :: 0 <= i < j < |o| ==> o[i].date.ordinal >= o[j].date.ordinal
  {
    var o := SortBy(rs, LatestFirst);
    assert forall i, j :: 0 <= i < j < |o| ==> LatestFirst(o[i]) <= LatestFirst(o[j]);
    o
  }

  /** Details in their default order: a permutation with start times non-decreasing. */
  function DetailOrder(ds: seq<Detail>): (o: seq<Detail>)
    ensures multiset(o) == multiset(ds) && |o| == |ds|
    ensures forall i, j :: 0 <= i < j < |o| ==> o[i].startTime.secondOfDay <= o[j].startTime.secondOfDay
  {
    var o := SortBy(ds, EarliestFirst);
    assert forall i, j :: 0 <= i < j < |o| ==> EarliestFirst(o[i]) <= EarliestFirst(o[j]);
    o
  }

  /** A report as the store hands it out: its details in their default order. */
  function Fetched(r: Report): (f: Report)
    ensures f.user == r.user && f.date == r.date && f.remarks == r.remarks && f.comment == r.comment
    ensures f.bossConfirmation == r.bossConfirmation && f.isSubmitted == r.isSubmitted
    ensures multiset(f.details) == multiset(r.details) && |f.details| == |r.details|
    ensures forall i, j :: 0 <= i < j < |f.details| ==>
      f.details[i].startTime.secondOfDay <= f.details[j].startTime.secondOfDay
  {
    r.(details := DetailOrder(r.details))
  }

  /** Details that are already in start-time order keep their order. */
  lemma DetailOrderKeepsOrdered(ds: seq<Detail>)
    requires forall i, j :: 0 <= i < j < |ds| ==> ds[i].startTime.secondOfDay <= ds[j].startTime.secondOfDay
    ensures DetailOrder(ds) == ds
  {
    assert SortedBy(ds, EarliestFirst);
    SortSortedIsIdentity(ds, EarliestFirst);
  }

  /** Reports that are already latest-first keep their order. */
  lemma ReportOrderKeepsOrdered(rs: seq<Report>)
    requires forall i, j :: 0 <= i < j < |rs| ==> rs[i].date.ordinal >= rs[j].date.ordinal
    ensures ReportOrder(rs) == rs
  {
    assert SortedBy(rs, LatestFirst);
    SortSortedIsIdentity(rs, LatestFirst);
  }
}
