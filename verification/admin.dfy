/**
 The admin of daily reports (DailyReportAdmin in report/admin.py): which
 reports a user sees and may view, change or delete, how a saved report gets
 its owner, and the two computed list columns.

 The requesting user is passed explicitly as `actor`. Form widgets, inlines,
 list layout and paging are not modelled.
 */
module Admin {
  import opened Models

  // ---------------------------------------------------------------------------
  // Scoping and permissions

  /** `qs.filter(user=actor)`: the reports owned by `actor`, in their original order. */
  function OwnedReports(actor: User, qs: seq<Report>): (r: seq<Report>)
    ensures |r| <= |qs|
    ensures forall x :: x in r <==> x in qs && OwnedBy(x, actor)
    ensures forall x :: multiset(r)[x] == if OwnedBy(x, actor) then multiset(qs)[x] else 0
  {
    if |qs| == 0 then []
    else
      assert qs == [qs[0]] + qs[1..];
      var rest := OwnedReports(actor, qs[1..]);
      if OwnedBy(qs[0], actor) then [qs[0]] + rest else rest
  }

  /** The reports listed for `actor`: everything for a superuser, otherwise only their own. */
  function GetQueryset(actor: User, qs: seq<Report>): (r: seq<Report>)
    ensures actor.isSuperuser ==> r == qs
    ensures !actor.isSuperuser ==> forall x :: x in r <==> x in qs && OwnedBy(x, actor)
    ensures !actor.isSuperuser ==>
      forall x :: multiset(r)[x] == if OwnedBy(x, actor) then multiset(qs)[x] else 0
  {
    if actor.isSuperuser then qs else OwnedReports(actor, qs)
  }

  /** May `actor` view `obj`? `None` stands for the list-level check. */
  predicate HasViewPermission(actor: User, obj: Option<Report>) {
    if actor.isSuperuser then true
    else if obj.None? then true
    else OwnedBy(obj.value, actor)
  }

  /** May `actor` change `obj`? `None` stands for the list-level check. */
  predicate HasChangePermission(actor: User, obj: Option<Report>) {
    if actor.isSuperuser then true
    else if obj.None? then true
    else OwnedBy(obj.value, actor)
  }

  /** May `actor` delete `obj`? `None` stands for the list-level check. */
  predicate HasDeletePermission(actor: User, obj: Option<Report>) {
    if actor.isSuperuser then true
    else if obj.None? then true
    else OwnedBy(obj.value, actor)
  }

  /** Filtering distributes over concatenation: nothing is reordered across the input. */
  lemma {:induction false} OwnedReportsAppend(actor: User, a: seq<Report>, b: seq<Report>)
    ensures OwnedReports(actor, a + b) == OwnedReports(actor, a) + OwnedReports(actor, b)
  {
    if |a| > 0 {
      assert (a + b)[0] == a[0] && (a + b)[1..] == a[1..] + b;
      OwnedReportsAppend(actor, a[1..], b);
    } else {
      assert a + b == b;
    }
  }

  /** The relative order of the kept reports is the order of the input. */
  lemma OwnedReportsKeepOrder(actor: User, qs: seq<Report>, i: nat, j: nat)
    requires i < j < |qs| && OwnedBy(qs[i], actor) && OwnedBy(qs[j], actor)
    ensures exists a, b ::
      (0 <= a < b < |OwnedReports(actor, qs)|
       && OwnedReports(actor, qs)[a] == qs[i] && OwnedReports(actor, qs)[b] == qs[j])
  {
    assert qs == qs[..i] + ([qs[i]] + (qs[i + 1..j] + ([qs[j]] + qs[j + 1..])));
    OwnedReportsAppend(actor, qs[..i], [qs[i]] + (qs[i + 1..j] + ([qs[j]] + qs[j + 1..])));
    OwnedReportsAppend(actor, [qs[i]], qs[i + 1..j] + ([qs[j]] + qs[j + 1..]));
    OwnedReportsAppend(actor, qs[i + 1..j], [qs[j]] + qs[j + 1..]);
    OwnedReportsAppend(actor, [qs[j]], qs[j + 1..]);
    assert OwnedReports(actor, [qs[i]]) == [qs[i]];
    assert OwnedReports(actor, [qs[j]]) == [qs[j]];
    var a := |OwnedReports(actor, qs[..i])|;
    var b := a + 1 + |OwnedReports(actor, qs[i + 1..j])|;
    assert OwnedReports(actor, qs)[a] == qs[i];
    assert OwnedReports(actor, qs)[b] == qs[j];
  }

  /** A superuser passes all three checks on every object and on the list. */
  lemma SuperuserMayDoAnything(actor: User, obj: Option<Report>)
    requires actor.isSuperuser
    ensures HasViewPermission(actor, obj)
    ensures HasChangePermission(actor, obj)
    ensures HasDeletePermission(actor, obj)
  {
  }

  /** The list-level check always passes. */
  lemma ListLevelAlwaysAllowed(actor: User)
    ensures HasViewPermission(actor, None)
    ensures HasChangePermission(actor, None)
    ensures HasDeletePermission(actor, None)
  {
  }

  /** On an object, an ordinary user passes each check exactly when they own it. */
  lemma OnlyOwnerMayTouch(actor: User, r: Report)
    requires !actor.isSuperuser
    ensures HasViewPermission(actor, Some(r)) <==> OwnedBy(r, actor)
    ensures HasChangePermission(actor, Some(r)) <==> OwnedBy(r, actor)
    ensures HasDeletePermission(actor, Some(r)) <==> OwnedBy(r, actor)
  {
  }

  /** Viewing, changing and deleting are allowed on exactly the same inputs. */
  lemma PermissionsAgree(actor: User, obj: Option<Report>)
    ensures HasViewPermission(actor, obj) == HasChangePermission(actor, obj)
    ensures HasChangePermission(actor, obj) == HasDeletePermission(actor, obj)
  {
  }

  /** Every listed report may be changed by the user it is listed for, and only those. */
  lemma QuerysetMatchesChangePermission(actor: User, qs: seq<Report>, x: Report)
    requires x in qs
    ensures x in GetQueryset(actor, qs) <==> HasChangePermission(actor, Some(x))
  {
  }

  // ---------------------------------------------------------------------------
  // Saving

  /** `save_model`: a newly created report is given to its creator; a changed one keeps its owner. */
  function SaveModel(actor: User, obj: Report, change: bool): (r: Report)
    ensures !change ==> r.user == Some(actor)
    ensures change ==> r.user == obj.user
    ensures r.date == obj.date && r.bossConfirmation == obj.bossConfirmation
    ensures r.remarks == obj.remarks && r.comment == obj.comment
    ensures r.isSubmitted == obj.isSubmitted && r.details == obj.details
  {
    if !change then obj.(user := Some(actor)) else obj
  }

  /** A report created through the admin is listed for, and may be edited by, its creator. */
  lemma CreatorSeesCreatedReport(actor: User, obj: Report, qs: seq<Report>)
    ensures var saved := SaveModel(actor, obj, false);
      && HasViewPermission(actor, Some(saved))
      && HasChangePermission(actor, Some(saved))
      && HasDeletePermission(actor, Some(saved))
      && saved in GetQueryset(actor, qs + [saved])
  {
    var saved := SaveModel(actor, obj, false);
    assert saved in qs + [saved];
  }

  // ---------------------------------------------------------------------------
  // List columns

  /** `get_username`: the owner's name, or the placeholder when there is no owner. */
  function GetUsername(r: Report): (s: string)
    ensures r.user.Some? ==> s == r.user.value.username
    ensures r.user.None? ==> s == Unset
  {
    if r.user.Some? then r.user.value.username else Unset
  }

  /** A report's display string names the same user as the admin's user column. */
  lemma ReportStrShowsUsername(r: Report)
    ensures ReportStr(r) == r.date.text + " - " + GetUsername(r)
  {
  }

  /** Total length of the present texts among `parts`. */
  function TextLength(parts: seq<Option<string>>): nat {
    if |parts| == 0 then 0
    else (if parts[0].Some? then |parts[0].value| else 0) + TextLength(parts[1..])
  }

  /**
   Python's `sep.join(parts)` over texts that may be `None`: joining fails
   (`None` here, a `TypeError` in Python) as soon as one part is missing.
   */
  function JoinTexts(parts: seq<Option<string>>, sep: string): (r: Option<string>)
    ensures r.None? <==> exists i :: 0 <= i < |parts| && parts[i].None?
    ensures r.Some? && |parts| == 0 ==> r.value == ""
    ensures r.Some? && |parts| > 0 ==> |r.value| == TextLength(parts) + |sep| * (|parts| - 1)
    ensures r.Some? && |parts| > 0 ==> r.value[..|parts[0].value|] == parts[0].value
  {
    if |parts| == 0 then Some("")
    else if parts[0].None? then None
    else if |parts| == 1 then Some(parts[0].value)
    else
      var rest := JoinTexts(parts[1..], sep);
      assert forall i :: 1 <= i < |parts| ==> parts[i] == parts[1..][i - 1];
      if rest.None? then None else Some(parts[0].value + sep + rest.value)
  }

  /** Joining a single present text gives that text. */
  lemma JoinTextsSingle(x: string, sep: string)
    ensures JoinTexts([Some(x)], sep) == Some(x)
  {
  }

  /** Joining one more present text appends the separator and that text. */
  lemma {:induction false} JoinTextsAppend(parts: seq<Option<string>>, x: string, sep: string)
    requires |parts| > 0 && forall i :: 0 <= i < |parts| ==> parts[i].Some?
    ensures JoinTexts(parts, sep).Some?
    ensures JoinTexts(parts + [Some(x)], sep) == Some(JoinTexts(parts, sep).value + sep + x)
  {
    var all := parts + [Some(x)];
    assert all[0] == parts[0];
    if |parts| == 1 {
      assert all[1..] == [Some(x)];
    } else {
      assert all[1..] == parts[1..] + [Some(x)];
      assert forall i :: 0 <= i < |parts[1..]| ==> parts[1..][i] == parts[i + 1];
      JoinTextsAppend(parts[1..], x, sep);
      var tail := JoinTexts(parts[1..], sep).value;
      assert JoinTexts(parts, sep).value == parts[0].value + sep + tail;
      assert JoinTexts(all, sep).value == parts[0].value + sep + (tail + sep + x);
      assert parts[0].value + sep + (tail + sep + x) == (parts[0].value + sep + tail) + sep + x;
    }
  }

  /** Joining two or three present texts puts the separator between consecutive texts. */
  lemma JoinTextsShort(parts: seq<Option<string>>, sep: string)
    ensures |parts| == 2 && JoinTexts(parts, sep).Some? ==>
      JoinTexts(parts, sep).value == parts[0].value + sep + parts[1].value
    ensures |parts| == 3 && JoinTexts(parts, sep).Some? ==>
      JoinTexts(parts, sep).value == parts[0].value + sep + parts[1].value + sep + parts[2].value
  {
    if (|parts| == 2 || |parts| == 3) && JoinTexts(parts, sep).Some? {
      var n := |parts|;
      assert parts == parts[..n - 1] + [parts[n - 1]];
      assert parts[..n - 1][0] == parts[0];
      JoinTextsSingle(parts[0].value, sep);
      if n == 3 {
        assert parts[..1] == [parts[0]];
        assert parts[..2] == parts[..1] + [parts[1]];
        JoinTextsAppend(parts[..1], parts[1].value, sep);
      }
      JoinTextsAppend(parts[..n - 1], parts[n - 1].value, sep);
    }
  }

  /** The details the list column shows: the first three in start-time order. */
  function ShownDetails(r: Report): (shown: seq<Detail>)
    ensures |shown| == if |r.details| < 3 then |r.details| else 3
    ensures forall i :: 0 <= i < |shown| ==> shown[i] == DetailOrder(r.details)[i]
  {
    var ordered := DetailOrder(r.details);
    if |ordered| < 3 then ordered else ordered[..3]
  }

  /** The titles of the shown details, each possibly missing. */
  function ShownTitles(r: Report): (titles: seq<Option<string>>)
    ensures |titles| == |ShownDetails(r)|
    ensures forall i :: 0 <= i < |titles| ==> titles[i] == ShownDetails(r)[i].workTitle
  {
    var shown := ShownDetails(r);
    seq(|shown|, i requires 0 <= i < |shown| => shown[i].workTitle)
  }

  /**
   `get_work_titles`: the titles of the first three details, joined with
   ", ". `None` is the `TypeError` raised when one of them has no title.
   */
  function GetWorkTitles(r: Report): (s: Option<string>)
    ensures s.None? <==> exists i :: 0 <= i < |ShownDetails(r)| && ShownDetails(r)[i].workTitle.None?
    ensures s.Some? && |r.details| == 0 ==> s.value == ""
    ensures s.Some? && |r.details| > 0 ==>
      |s.value| == TextLength(ShownTitles(r)) + 2 * (|ShownDetails(r)| - 1)
    ensures s.Some? && |ShownDetails(r)| == 1 ==> s.value == ShownDetails(r)[0].workTitle.value
    ensures s.Some? && |ShownDetails(r)| == 2 ==>
      s.value == ShownDetails(r)[0].workTitle.value + ", " + ShownDetails(r)[1].workTitle.value
    ensures s.Some? && |ShownDetails(r)| == 3 ==>
      s.value == ShownDetails(r)[0].workTitle.value + ", " + ShownDetails(r)[1].workTitle.value
                 + ", " + ShownDetails(r)[2].workTitle.value
  {
    JoinTextsShort(ShownTitles(r), ", ");
    JoinTexts(ShownTitles(r), ", ")
  }

  /**
   Only the titles of the shown details matter: two reports whose details, in
   start-time order, agree in number up to three and in the titles of the
   first three get the same column, whatever their later details hold.
   */
  lemma WorkTitlesIgnoreLaterDetails(a: Report, b: Report)
    requires |ShownDetails(a)| == |ShownDetails(b)|
    requires forall i :: 0 <= i < |ShownDetails(a)| ==>
      DetailOrder(a.details)[i].workTitle == DetailOrder(b.details)[i].workTitle
    ensures GetWorkTitles(a) == GetWorkTitles(b)
  {
    assert ShownTitles(a) == ShownTitles(b);
  }
}
