/**
 The CSV export of all daily reports (export_csv in report/views.py), as the
 table of cells handed to the CSV writer: one fixed header row, then, for
 each report in latest-first order, one row per detail in start-time order,
 or a single row with blank work cells when the report has no detail.

 CSV quoting, the cp932 byte encoding and the HTTP response are not modelled.
 */
module Export {
  import opened Models
  import opened Ordering
  import opened Blocks

  type Row = seq<string>

  /** Number of cells in every row. */
  const Width := 12

  /** Column positions, counted from zero. */
  const DateCol := 0
  const UserCol := 1
  const StartCol := 2
  const EndCol := 3
  const TitleCol := 4
  const ClientCol := 5
  const PersonCol := 6
  const DetailCol := 7
  const RemarksCol := 8
  const CommentCol := 9
  const ConfirmCol := 10
  const SubmitCol := 11

  const Header: Row := [
    "日付", "ユーザー", "開始時間", "終了時間", "作業内容", "得意先", "担当者", "作業詳細",
    "報告事項", "コメント", "上司確認", "提出状態"
  ]

  const Confirmed := "確認済"
  const Unconfirmed := "未確認"
  const Submitted := "提出済"
  const Draft := "下書き"

  /** Python's `value or ''` on an optional text field. */
  function OrEmpty(o: Option<string>): (s: string)
    ensures o.None? ==> s == ""
    ensures o.Some? ==> s == o.value
  {
    match o
    case None => ""
    case Some(v) => v
  }

  /** Token written for the supervisor-confirmation flag. */
  function ConfirmationToken(confirmed: bool): (t: string)
    ensures t == Confirmed <==> confirmed
    ensures t == Unconfirmed <==> !confirmed
  {
    if confirmed then Confirmed else Unconfirmed
  }

  /** Token written for the submission flag. */
  function SubmissionToken(submitted: bool): (t: string)
    ensures t == Submitted <==> submitted
    ensures t == Draft <==> !submitted
  {
    if submitted then Submitted else Draft
  }

  /** The username cell: empty when the report has no owner. */
  function UserCell(r: Report): (s: string)
    ensures r.user.None? ==> s == ""
    ensures r.user.Some? ==> s == r.user.value.username
  {
    if r.user.Some? then r.user.value.username else ""
  }

  /** The row written for detail `d` of report `r`. */
  function DetailRow(r: Report, d: Detail): (row: Row)
    ensures |row| == Width
    ensures row[StartCol] == d.startTime.text && row[EndCol] == d.endTime.text
    ensures row[TitleCol] == OrEmpty(d.workTitle) && row[DetailCol] == OrEmpty(d.workDetail)
    ensures row[ClientCol] == OrEmpty(d.client) && row[PersonCol] == OrEmpty(d.responsiblePerson)
  {
    [ r.date.text,
      UserCell(r),
      d.startTime.text,
      d.endTime.text,
      OrEmpty(d.workTitle),
      OrEmpty(d.client),
      OrEmpty(d.responsiblePerson),
      OrEmpty(d.workDetail),
      OrEmpty(r.remarks),
      OrEmpty(r.comment),
      ConfirmationToken(r.bossConfirmation),
      SubmissionToken(r.isSubmitted) ]
  }

  /** The single row written for a report without details. */
  function EmptyRow(r: Report): (row: Row)
    ensures |row| == Width
    ensures forall c :: StartCol <= c <= DetailCol ==> row[c] == ""
  {
    [ r.date.text,
      UserCell(r),
      "", "", "", "", "", "",
      OrEmpty(r.remarks),
      OrEmpty(r.comment),
      ConfirmationToken(r.bossConfirmation),
      SubmissionToken(r.isSubmitted) ]
  }

  /** Number of rows a report contributes: one per detail, at least one. */
  function Weight(r: Report): nat {
    if |r.details| == 0 then 1 else |r.details|
  }

  /** The rows written for one report, its details taken in the order given. */
  function ReportRows(r: Report): (rows: seq<Row>)
    ensures |rows| == Weight(r)
    ensures forall k :: 0 <= k < |rows| ==> |rows[k]| == Width
  {
    var ds := r.details;
    if |ds| == 0 then [EmptyRow(r)]
    else seq(|ds|, k requires 0 <= k < |ds| => DetailRow(r, ds[k]))
  }

  /** The blocks of rows for `rs`, one block per report, in the order given. */
  function RowBlocks(rs: seq<Report>): (bs: seq<seq<Row>>)
    ensures |bs| == |rs|
  {
    seq(|rs|, i requires 0 <= i < |rs| => ReportRows(rs[i]))
  }

  /** Sum over `rs` of each report's number of rows. */
  function RowCount(rs: seq<Report>): nat {
    if |rs| == 0 then 0 else Weight(rs[0]) + RowCount(rs[1..])
  }

  /** The table written for the reports `rs`, taken in the order given. */
  function Table(rs: seq<Report>): (t: seq<Row>)
    ensures |t| == 1 + RowCount(rs)
    ensures t[0] == Header
    ensures forall p :: 0 <= p < |t| ==> |t[p]| == Width
  {
    var blocks := RowBlocks(rs);
    RowCountBlocks(rs);
    FlattenUniformLength(blocks, Width);
    [Header] + Flatten(blocks)
  }

  /** Writes the rows of one report: one per detail, or the blank-work row when it has none. */
  method WriteReport(report: Report) returns (rows: seq<Row>)
    ensures rows == ReportRows(report)
  {
    var details := report.details;
    if |details| > 0 {
      rows := [];
      var k := 0;
      while k < |details|
        invariant 0 <= k <= |details|
        invariant |rows| == k
        invariant forall j :: 0 <= j < k ==> rows[j] == DetailRow(report, details[j])
      {
        rows := rows + [DetailRow(report, details[k])];
        k := k + 1;
      }
    } else {
      rows := [EmptyRow(report)];
    }
  }

  /** Writes the table row by row, as the view does with its CSV writer. */
  method WriteRows(reports: seq<Report>) returns (rows: seq<Row>)
    ensures rows == Table(reports)
  {
    rows := [Header];
    ghost var blocks := RowBlocks(reports);
    var i := 0;
    while i < |reports|
      invariant 0 <= i <= |reports|
      invariant rows == [Header] + Flatten(blocks[..i])
    {
      var block := WriteReport(reports[i]);
      assert block == blocks[i];
      FlattenPrefixStep(blocks, i);
      rows := rows + block;
      i := i + 1;
    }
    assert blocks[..i] == blocks;
  }

  /** Index of the report that produced data row `p` of `Table(rs)`. */
  function SourceIndex(rs: seq<Report>, p: nat): (i: nat)
    requires 1 <= p <= RowCount(rs)
    ensures i < |rs|
    ensures Start(RowBlocks(rs), i) <= p - 1 < Start(RowBlocks(rs), i) + Weight(rs[i])
  {
    RowCountBlocks(rs);
    BlockOf(RowBlocks(rs), p - 1)
  }

  /** The reports the view iterates over: latest date first, each with its details in order. */
  function ExportQueryset(store: seq<Report>): (q: seq<Report>)
    ensures |q| == |store|
    ensures multiset(q) == multiset(seq(|store|, i requires 0 <= i < |store| => Fetched(store[i])))
    ensures forall i, j :: 0 <= i < j < |q| ==> q[i].date.ordinal >= q[j].date.ordinal
  {
    ReportOrder(seq(|store|, i requires 0 <= i < |store| => Fetched(store[i])))
  }

  /** The whole exported table of the report store `store`. */
  function ExportTable(store: seq<Report>): (t: seq<Row>)
    ensures |t| == 1 + RowCount(store)
    ensures t[0] == Header
    ensures forall p :: 0 <= p < |t| ==> |t[p]| == Width
  {
    RowCountQueryset(store);
    Table(ExportQueryset(store))
  }

  // ---------------------------------------------------------------------------
  // Row counting and layout

  /** Inserting a report into a sequence adds exactly its weight to the row count. */
  lemma {:induction false} RowCountInsert(r: Report, rs: seq<Report>)
    ensures RowCount(InsertBy(r, rs, LatestFirst)) == Weight(r) + RowCount(rs)
  {
    if |rs| > 0 && LatestFirst(r) > LatestFirst(rs[0]) {
      RowCountInsert(r, rs[1..]);
      var ins := InsertBy(r, rs, LatestFirst);
      assert ins[1..] == InsertBy(r, rs[1..], LatestFirst);
    } else {
      var ins := InsertBy(r, rs, LatestFirst);
      assert ins[1..] == rs;
    }
  }

  /** Putting the reports in date order does not change how many rows they make. */
  lemma {:induction false} RowCountSort(rs: seq<Report>)
    ensures RowCount(ReportOrder(rs)) == RowCount(rs)
  {
    if |rs| > 0 {
      RowCountSort(rs[1..]);
      RowCountInsert(rs[0], SortBy(rs[1..], LatestFirst));
    }
  }

  /** Reading the reports back from the store does not change how many rows they make. */
  lemma {:induction false} RowCountFetched(rs: seq<Report>)
    ensures RowCount(seq(|rs|, i requires 0 <= i < |rs| => Fetched(rs[i]))) == RowCount(rs)
  {
    if |rs| > 0 {
      var f := seq(|rs|, i requires 0 <= i < |rs| => Fetched(rs[i]));
      RowCountFetched(rs[1..]);
      assert f[1..] == seq(|rs[1..]|, i requires 0 <= i < |rs[1..]| => Fetched(rs[1..][i]));
    }
  }

  /** The export makes as many data rows as the reports of the store weigh. */
  lemma RowCountQueryset(store: seq<Report>)
    ensures RowCount(ExportQueryset(store)) == RowCount(store)
    ensures TotalLength(RowBlocks(ExportQueryset(store))) == RowCount(store)
  {
    RowCountBlocks(ExportQueryset(store));
    RowCountFetched(store);
    RowCountSort(seq(|store|, i requires 0 <= i < |store| => Fetched(store[i])));
  }

  /** Every report of the queryset is a stored report, read back with its details in order. */
  lemma QuerysetFromStore(store: seq<Report>, x: Report)
    requires x in ExportQueryset(store)
    ensures exists i :: 0 <= i < |store| && x == Fetched(store[i])
  {
    var f := seq(|store|, i requires 0 <= i < |store| => Fetched(store[i]));
    assert x in multiset(f);
  }

  /** Every stored report, read back, is in the queryset. */
  lemma StoreInQueryset(store: seq<Report>, i: nat)
    requires i < |store|
    ensures Fetched(store[i]) in ExportQueryset(store)
  {
    var f := seq(|store|, i requires 0 <= i < |store| => Fetched(store[i]));
    assert f[i] in multiset(f);
  }

  /** The blocks of a sequence of reports add up to its row count. */
  lemma {:induction false} RowCountBlocks(rs: seq<Report>)
    ensures TotalLength(RowBlocks(rs)) == RowCount(rs)
  {
    if |rs| > 0 {
      RowCountBlocks(rs[1..]);
      assert RowBlocks(rs)[1..] == RowBlocks(rs[1..]);
    }
  }

  // ---------------------------------------------------------------------------
  // Row contents

  /** A stored report with details contributes one row per detail, in start-time order. */
  lemma DetailRows(r: Report, k: nat)
    requires k < |r.details|
    ensures var d := Fetched(r).details[k];
      && ReportRows(Fetched(r))[k][StartCol] == d.startTime.text
      && ReportRows(Fetched(r))[k][EndCol] == d.endTime.text
      && ReportRows(Fetched(r))[k][TitleCol] == OrEmpty(d.workTitle)
      && ReportRows(Fetched(r))[k][ClientCol] == OrEmpty(d.client)
      && ReportRows(Fetched(r))[k][PersonCol] == OrEmpty(d.responsiblePerson)
      && ReportRows(Fetched(r))[k][DetailCol] == OrEmpty(d.workDetail)
    ensures forall l :: k < l < |r.details| ==>
      Fetched(r).details[k].startTime.secondOfDay <= Fetched(r).details[l].startTime.secondOfDay
  {
  }

  /** A report without details contributes one row whose six work cells are blank. */
  lemma EmptyReportRow(r: Report)
    requires |r.details| == 0
    ensures |ReportRows(r)| == 1
    ensures forall c :: StartCol <= c <= DetailCol ==> ReportRows(r)[0][c] == ""
  {
  }

  /** Every row of one report carries that report's date, owner, texts and statuses. */
  lemma ReportLevelCells(r: Report, k: nat)
    requires k < Weight(r)
    ensures ReportRows(r)[k][DateCol] == r.date.text
    ensures ReportRows(r)[k][UserCol] == UserCell(r)
    ensures ReportRows(r)[k][RemarksCol] == OrEmpty(r.remarks)
    ensures ReportRows(r)[k][CommentCol] == OrEmpty(r.comment)
    ensures ReportRows(r)[k][ConfirmCol] == Confirmed <==> r.bossConfirmation
    ensures ReportRows(r)[k][ConfirmCol] == Unconfirmed <==> !r.bossConfirmation
    ensures ReportRows(r)[k][SubmitCol] == Submitted <==> r.isSubmitted
    ensures ReportRows(r)[k][SubmitCol] == Draft <==> !r.isSubmitted
  {
  }

  /** Two rows of the same report differ at most in the six work cells. */
  lemma RowsOfOneReportAgree(r: Report, a: nat, b: nat, c: nat)
    requires a < Weight(r) && b < Weight(r) && c < Width
    requires c < StartCol || DetailCol < c
    ensures ReportRows(r)[a][c] == ReportRows(r)[b][c]
  {
    ReportLevelCells(r, a);
    ReportLevelCells(r, b);
  }

  // ---------------------------------------------------------------------------
  // Properties of the whole export

  /** Data row `p` of a table is the row of its report at its offset within that report's block. */
  lemma TableRowAt(rs: seq<Report>, p: nat)
    requires 1 <= p < |Table(rs)|
    ensures Table(rs)[p] == ReportRows(rs[SourceIndex(rs, p)])[p - 1 - Start(RowBlocks(rs), SourceIndex(rs, p))]
  {
    var blocks := RowBlocks(rs);
    RowCountBlocks(rs);
    var i := BlockOf(blocks, p - 1);
    assert Table(rs)[p] == Flatten(blocks)[p - 1];
    Locate(blocks, p - 1);
    assert blocks[i] == ReportRows(rs[i]);
  }

  /** Data row `p` of a table is a row of the report it is attributed to, and carries its date. */
  lemma TableRowOrigin(rs: seq<Report>, p: nat)
    requires 1 <= p < |Table(rs)|
    ensures Table(rs)[p] in ReportRows(rs[SourceIndex(rs, p)])
    ensures Table(rs)[p][DateCol] == rs[SourceIndex(rs, p)].date.text
  {
    TableRowAt(rs, p);
    var i := SourceIndex(rs, p);
    var k := p - 1 - Start(RowBlocks(rs), i);
    ReportLevelCells(rs[i], k);
  }

  /** Rows appear grouped by report, the reports in the order given. */
  lemma TableFollowsReports(rs: seq<Report>, p: nat, q: nat)
    requires 1 <= p < q < |Table(rs)|
    ensures SourceIndex(rs, p) <= SourceIndex(rs, q)
  {
    var blocks := RowBlocks(rs);
    RowCountBlocks(rs);
    var i := BlockOf(blocks, p - 1);
    var j := BlockOf(blocks, q - 1);
    if j < i {
      StartMonotone(blocks, j, i);
      assert false;
    }
  }

  /** Every row of every report appears in the table. */
  lemma TableCoversReports(rs: seq<Report>, i: nat, k: nat) returns (p: nat)
    requires i < |rs| && k < Weight(rs[i])
    ensures 1 <= p < |Table(rs)|
    ensures Table(rs)[p] == ReportRows(rs[i])[k]
    ensures p == 1 + Start(RowBlocks(rs), i) + k
  {
    var blocks := RowBlocks(rs);
    RowCountBlocks(rs);
    FlattenLayout(blocks, i, k);
    p := 1 + Start(blocks, i) + k;
    assert Table(rs)[p] == Flatten(blocks)[p - 1];
  }

  /** The report that produced row `p` of the export (row 0 is the header). */
  function Origin(store: seq<Report>, p: nat): (r: Report)
    requires 1 <= p < |ExportTable(store)|
    ensures r in ExportQueryset(store)
  {
    RowCountQueryset(store);
    ExportQueryset(store)[SourceIndex(ExportQueryset(store), p)]
  }

  /** Row `p` of the export is one of the rows of the report it came from. */
  lemma ExportRowOrigin(store: seq<Report>, p: nat)
    requires 1 <= p < |ExportTable(store)|
    ensures ExportTable(store)[p] in ReportRows(Origin(store, p))
    ensures ExportTable(store)[p][DateCol] == Origin(store, p).date.text
  {
    RowCountQueryset(store);
    TableRowOrigin(ExportQueryset(store), p);
  }

  /** Later rows never come from reports with later dates. */
  lemma ExportDatesNonIncreasing(store: seq<Report>, p: nat, q: nat)
    requires 1 <= p < q < |ExportTable(store)|
    ensures Origin(store, p).date.ordinal >= Origin(store, q).date.ordinal
  {
    RowCountQueryset(store);
    var order := ExportQueryset(store);
    TableFollowsReports(order, p, q);
    var i, j := SourceIndex(order, p), SourceIndex(order, q);
    assert i == j || order[i].date.ordinal >= order[j].date.ordinal;
  }

  /** Every row of every stored report appears in the export. */
  lemma EveryReportExported(store: seq<Report>, s: nat, k: nat)
    requires s < |store| && k < Weight(store[s])
    ensures exists p :: 1 <= p < |ExportTable(store)| && ExportTable(store)[p] == ReportRows(Fetched(store[s]))[k]
  {
    var order := ExportQueryset(store);
    StoreInQueryset(store, s);
    var i :| 0 <= i < |order| && order[i] == Fetched(store[s]);
    var p := TableCoversReports(order, i, k);
    assert ExportTable(store) == Table(order);
    assert 1 <= p < |ExportTable(store)| && ExportTable(store)[p] == ReportRows(Fetched(store[s]))[k];
  }

  /** A report saved with its defaults exports as one unconfirmed draft row with blank work cells. */
  lemma NewReportExportsAsDraft(user: Option<User>, date: Date)
    ensures var t := ExportTable([NewReport(user, date)]);
      && |t| == 2
      && t[1][ConfirmCol] == Unconfirmed
      && t[1][SubmitCol] == Draft
      && t[1][RemarksCol] == "" && t[1][CommentCol] == ""
      && forall c :: StartCol <= c <= DetailCol ==> t[1][c] == ""
  {
    var r := NewReport(user, date);
    var f := seq(1, i requires 0 <= i < 1 => Fetched([r][i]));
    assert f == [r];
    ReportOrderKeepsOrdered([r]);
    assert ExportQueryset([r]) == [r];
    assert RowBlocks([r]) == [ReportRows(r)];
    assert Table([r]) == [Header] + ReportRows(r) + Flatten([]);
  }
}
