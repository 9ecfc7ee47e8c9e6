# Daily report: CSV export and admin access, in Dafny

This project models the core of an internal daily-report (timesheet) web
application built on Django. Employees record a daily report for a date, with
timed work entries ("details") under it. A supervisor confirms reports, and
staff can download every report as a CSV file.

The model covers three pieces:

- **Records** (`Models`, report/models.py). A `Report` has an optional owner,
  a date, two status flags (`bossConfirmation`, `isSubmitted`), two optional
  free texts and its `Detail`s. A `Detail` has a start time, an end time and
  optional texts. The module also gives the display strings and the default
  orderings: reports latest date first, details earliest start first.
- **CSV export** (`Export`, `export_csv` in report/views.py). The export is a
  table of cell strings. It has one fixed 12-column header row. After that,
  each report gives one row per detail, or one row with blank work cells
  when it has no detail. The two flags are written as fixed Japanese tokens,
  and missing texts are written as `''`.
- **Admin access** (`Admin`, `DailyReportAdmin` in report/admin.py). This
  covers the owner scoping of the list, the view/change/delete checks, how
  `save_model` assigns the owner, and the user and work-title list columns.

Two generic modules support these. `Ordering` is a stable insertion sort by
an integer key; it stands for Django's `ordering` / `order_by`. `Blocks` lays
blocks end to end and locates each element in its block; it describes a CSV
body in which every report contributes a block of rows.

Modelling choices:

- Dates and times are pre-formatted values. `Date(ordinal, text)` and
  `Time(secondOfDay, text)` carry an integer that orders them and the text
  that Python's `str()` prints for them. The model does not relate the two.
- Two users are equal when their primary keys (`User.id`) are equal. This is
  how Django compares model instances in `obj.user == request.user`, and how
  `filter(user=...)` selects rows.
- The database does not fix the order of reports that share a date, or of
  details that share a start time. The model keeps such ties in store order.
- The three permission checks are the predicates `Admin.HasViewPermission`,
  `Admin.HasChangePermission` and `Admin.HasDeletePermission`. Their
  behaviour is stated by the lemmas listed below.
- `get_work_titles` raises `TypeError` in Python when one of the joined
  titles is `None`. The model returns `None` in that case.

Data-model mismatch: the export reads `client` and `responsible_person` from
a detail (report/views.py:39-40). The detail class in report/models.py:23-28
does not declare these fields. The model gives `Detail` two optional text
fields, `client` and `responsiblePerson`, so that the export can be stated.
The admin inline also names a detail field `remarks` (report/admin.py:21)
that no model declares; it is not modelled.

## Model

| member | source | states |
|---|---|---|
| Ordering.SortBy | report/models.py:21 | Default ordering yields a permutation of its input in non-decreasing key order |
| Ordering.InsertBy | report/models.py:36 | Inserting into an ordered sequence adds exactly that element and keeps the order |
| Ordering.SortSortedIsIdentity | report/models.py:36 | Ordering an already ordered sequence leaves it unchanged, so ties keep their order |
| Models.ReportOrder | report/models.py:21 | Reports by `-date`: a permutation whose dates never increase |
| Models.DetailOrder | report/models.py:36 | Details by `start_time`: a permutation whose start times never decrease |
| Models.Fetched | report/views.py:30 | A report read back has the same fields and the same multiset of details, now in start-time order |
| Models.DetailOrderKeepsOrdered | report/models.py:36 | Details already in start-time order come back unchanged |
| Models.ReportOrderKeepsOrdered | report/models.py:21 | Reports already latest-first come back unchanged |
| Models.NewReport | report/models.py:5-13 | A new report is unconfirmed and unsubmitted, with no texts and no details |
| Models.ReportStr | report/models.py:15-16 | Display string is the date, `" - "`, then the owner's name or `未設定` |
| Models.DetailStr | report/models.py:30-31 | A detail's display string is always empty |
| Export.OrEmpty | report/views.py:38-43 | A missing text becomes `''` and a present text is written as is |
| Export.ConfirmationToken | report/views.py:44 | The confirmation cell is `確認済` exactly when confirmed, and `未確認` exactly when not |
| Export.SubmissionToken | report/views.py:45 | The submission cell is `提出済` exactly when submitted, and `下書き` exactly when not |
| Export.UserCell | report/views.py:35 | The username cell is the owner's name, or `''` when there is no owner |
| Export.DetailRow | report/views.py:33-46 | A detail's row has 12 cells holding its two times, title, client, responsible person and work detail, missing texts as `''` |
| Export.EmptyRow | report/views.py:49-57 | The row of a report without details has 12 cells with the six work cells blank |
| Export.ReportRows | report/views.py:30-57 | A report gives max(1, number of details) rows, each of 12 cells |
| Export.Table | report/views.py:20-57 | The table is the header followed by 1 + Σ max(1, details) rows in all, each of 12 cells |
| Export.WriteReport | report/views.py:31-57 | The per-report loop writes exactly that report's rows |
| Export.WriteRows | report/views.py:29-57 | The loop over reports writes exactly the header followed by every report's rows, in order |
| Export.ExportQueryset | report/views.py:26 | The reports iterated over are a permutation of the stored reports read back, in non-increasing date order |
| Export.QuerysetFromStore | report/views.py:26 | Every iterated report is a stored report read back with ordered details |
| Export.StoreInQueryset | report/views.py:26 | Every stored report is iterated over |
| Export.ExportTable | report/views.py:17-57 | The export starts with the header and has 1 + Σ max(1, details) rows over the store, each of 12 cells |
| Export.RowCountInsert | report/views.py:26 | Moving one report into date order does not change the row count |
| Export.RowCountSort | report/views.py:26 | Putting all reports in date order does not change the row count |
| Export.RowCountFetched | report/views.py:30 | Ordering each report's details does not change the row count |
| Export.RowCountQueryset | report/views.py:26-30 | The iterated reports give as many rows as the stored ones |
| Export.RowCountBlocks | report/views.py:29-57 | The rows of all reports number Σ max(1, details) |
| Export.DetailRows | report/views.py:32-46 | Row k of a report with details holds detail k's times and texts, details in start-time order |
| Export.EmptyReportRow | report/views.py:47-57 | A report without details gives one row whose six work cells are blank |
| Export.ReportLevelCells | report/views.py:33-57 | Every row of a report carries its date, user, remarks, comment and both status tokens |
| Export.RowsOfOneReportAgree | report/views.py:33-57 | Two rows of one report differ only in the six work cells |
| Export.SourceIndex | report/views.py:29-57 | Each data row is attributed to a report of the sequence, and lies within that report's block of rows |
| Export.TableRowAt | report/views.py:29-57 | A data row is the row of its report at its offset within that report's block |
| Export.TableRowOrigin | report/views.py:29-57 | A data row is one of its report's rows and carries its date |
| Export.TableFollowsReports | report/views.py:29-57 | Rows come grouped by report, the reports in iteration order |
| Export.TableCoversReports | report/views.py:29-57 | Row k of report i appears in the table exactly at the start of report i's block plus k, so rows keep their detail order |
| Export.Origin | report/views.py:26-57 | Each export row comes from an iterated report |
| Export.ExportRowOrigin | report/views.py:29-57 | Each export row is one of its report's rows and carries that report's date |
| Export.ExportDatesNonIncreasing | report/views.py:26-29 | Later rows never come from a report with a later date |
| Export.EveryReportExported | report/views.py:26-57 | Every row of every stored report appears in the export |
| Export.NewReportExportsAsDraft | report/models.py:8-11 | A report with the default flags exports as one `未確認` / `下書き` row with blank texts |
| Admin.OwnedReports | report/admin.py:58 | The filter keeps exactly the actor's reports, each as often as in the input |
| Admin.GetQueryset | report/admin.py:51-58 | A superuser sees everything; others see exactly their own reports, with multiplicities kept |
| Admin.OwnedReportsAppend | report/admin.py:58 | Filtering distributes over concatenation, so nothing is added or reordered |
| Admin.OwnedReportsKeepOrder | report/admin.py:58 | Two kept reports keep their relative order |
| Admin.HasViewPermission | report/admin.py:60-69 | View check: superuser, list level, or owner; its behaviour is stated by the permission lemmas below |
| Admin.HasChangePermission | report/admin.py:71-80 | Change check: superuser, list level, or owner; its behaviour is stated by the permission lemmas below |
| Admin.HasDeletePermission | report/admin.py:82-91 | Delete check: superuser, list level, or owner; its behaviour is stated by the permission lemmas below |
| Admin.SuperuserMayDoAnything | report/admin.py:60-91 | A superuser may view, change and delete any object and the list |
| Admin.ListLevelAlwaysAllowed | report/admin.py:66-67 | With no object, all three checks pass for every user |
| Admin.OnlyOwnerMayTouch | report/admin.py:69-91 | For a non-superuser and an object, each check passes exactly when the user owns it |
| Admin.PermissionsAgree | report/admin.py:60-91 | View, change and delete agree on every input |
| Admin.QuerysetMatchesChangePermission | report/admin.py:51-80 | A stored report is listed for a user exactly when that user may change it |
| Admin.SaveModel | report/admin.py:101-104 | On creation the owner becomes the actor; on change the owner is kept; no other field changes |
| Admin.CreatorSeesCreatedReport | report/admin.py:101-104 | A report created by a user is listed for that user and passes all three checks |
| Admin.GetUsername | report/admin.py:93-94 | The user column is the owner's name, or `未設定` without an owner |
| Admin.ReportStrShowsUsername | report/models.py:16 | The display string ends with the admin's user column |
| Admin.JoinTexts | report/admin.py:98 | Joining fails exactly when a part is missing; otherwise the length is Σ parts + separators, starting with the first part |
| Admin.JoinTextsSingle | report/admin.py:98 | Joining one text gives that text |
| Admin.JoinTextsAppend | report/admin.py:98 | Joining present texts plus one more gives the earlier join, the separator and the new text |
| Admin.JoinTextsShort | report/admin.py:98 | Joining two or three present texts puts the separator between consecutive texts |
| Admin.ShownDetails | report/admin.py:98 | The column looks at the first min(3, n) details in start-time order |
| Admin.ShownTitles | report/admin.py:98 | The titles looked at are those of the shown details |
| Admin.GetWorkTitles | report/admin.py:97-98 | The work-title column fails exactly when a shown title is missing; otherwise it is empty without details, and is the first one, two or three titles in start-time order separated by `", "` |
| Admin.WorkTitlesIgnoreLaterDetails | report/admin.py:97-98 | Two reports whose ordered details agree in the titles of the first three (and number up to three) get the same column, whatever their later details hold |

## Left out

- The HTTP response, its `Content-Disposition` file name (built from the current clock) and the staff-only decorator of the export view: framework I/O.
- CSV quoting and escaping by `csv.writer`, and the cp932 byte encoding: library code; rows are modelled as sequences of cell strings.
- Python's `str()` of dates and times: the text is carried pre-formatted beside an ordering integer.
- `created_at` / `updated_at` timestamps, persistence and cascade deletion: the model works on in-memory sequences. The report model in report/models.py declares no uniqueness constraint, and none is modelled.
- Admin forms, widgets, the detail inline, `list_display`, `list_filter`, `search_fields`, `date_hierarchy`, `fieldsets`, `list_per_page` and `list_editable`: user-interface configuration only.
- `export_view` and the URL routes in config/urls.py: they only render a page or route requests.
- CSV import: `import_csv` is imported by config/urls.py but its code is not part of this model.
- Mail settings and templates in Daily_Report/settings.py: configuration, not behaviour.
- Group/leader roles, the submit-and-notify flow and approval transitions: no code for them is part of this model.
- The detail field `remarks` listed by the admin inline: no model declares it.
- The admin's own `ordering = ('-date',)` (report/admin.py:42), which orders the queryset `get_queryset` starts from: `Admin.GetQueryset` takes that queryset as given and keeps its order.
