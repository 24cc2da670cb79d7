/** The authority's report management page
    (frontend/src/pages/dashboards/AuthorityReportManagement.jsx): the three
    tabs, the status-update request built from the form and the rule that
    disables it, and the assignment request. */
module ReportManagement {
  import opened Common
  import opened ReportModel
  import Text
  import L = Lifecycle
  import Q = Queries

  datatype Tab = NotParticipated | Participated | Finished

  /** The tab keys: 'pending', 'participated', 'completed'. */
  function ParseTab(key: string): (t: Option<Tab>)
    ensures t == Some(NotParticipated) <==> key == "pending"
    ensures t == Some(Participated) <==> key == "participated"
    ensures t == Some(Finished) <==> key == "completed"
  {
    if key == "pending" then Some(NotParticipated)
    else if key == "participated" then Some(Participated)
    else if key == "completed" then Some(Finished)
    else None
  }

  /** The status filter each tab asks the listing for: "pending",
      "approved,inprogress,pending" and "completed,rejected". */
  function TabStatusQuery(t: Tab): (q: string)
    ensures q != "" && q != "assigned"
  {
    match t
    case NotParticipated => StatusName(Pending)
    case Participated => StatusName(Approved) + "," + StatusName(InProgress) + "," + StatusName(Pending)
    case Finished => StatusName(Completed) + "," + StatusName(Rejected)
  }

  /** The statuses a tab's query names. */
  function TabStatuses(t: Tab): set<Status>
  {
    match t
    case NotParticipated => {Pending}
    case Participated => {Approved, InProgress, Pending}
    case Finished => {Completed, Rejected}
  }

  /** The page's own filter on what the listing returned: of the reports
      whose status the tab asks for, it keeps exactly those that belong to
      the tab. */
  function ClientKeeps(t: Tab, r: Report): (keep: bool)
    ensures r.status in TabStatuses(t) ==> (keep <==> TabOf(r) == t)
  {
    match t
    case NotParticipated => r.assignedTo.None?
    case Participated => r.status == Approved || r.status == InProgress || (r.status == Pending && r.assignedTo.Some?)
    case Finished => true
  }

  /** The page size a tab receives: it sends no page or limit, so the
      listing's defaults apply. */
  const TabPageSize: nat := 12

  lemma TabPageSizeIsDefault()
    ensures Q.DefaultLimit == Q.Num(TabPageSize) && Q.DefaultPage == Q.Num(1)
  {
  }

  /** The reports the listing selects for a tab's status query. */
  function TabMatches(reports: L.Store, t: Tab): (ids: set<Id>)
    ensures ids <= reports.Keys
  {
    set id | id in reports && Q.SelectedByStatus(Q.ParseStatusFilter(TabStatusQuery(t)), reports[id])
  }

  /** A tab's query selects exactly the reports whose status it names. */
  lemma TabMatchesByStatus(reports: L.Store, t: Tab)
    ensures forall id :: id in TabMatches(reports, t) <==> id in reports && reports[id].status in TabStatuses(t)
  {
    forall id | id in reports
      ensures id in TabMatches(reports, t) <==> reports[id].status in TabStatuses(t)
    {
      QuerySelects(t, reports[id]);
    }
  }

  /** The reports a tab shows: the first page the listing returns for the
      tab's status query (`fetched`), filtered by the page. An unknown tab
      fetches and shows nothing. */
  function TabReports(reports: L.Store, key: string, fetched: set<Id>): (ids: set<Id>)
    ensures ParseTab(key).None? ==> ids == {}
    ensures ids <= fetched
    ensures forall id :: id in ids <==>
      ParseTab(key).Some? && id in fetched && id in reports && ClientKeeps(ParseTab(key).value, reports[id])
  {
    match ParseTab(key)
    case None => {}
    case Some(t) => set id | id in fetched && id in reports && ClientKeeps(t, reports[id])
  }

  /** The tab a report belongs to. */
  function TabOf(r: Report): (t: Tab)
    ensures t == NotParticipated <==> r.status == Pending && r.assignedTo.None?
    ensures t == Finished <==> r.status == Completed || r.status == Rejected
    ensures r.status in TabStatuses(t)
  {
    if r.status == Pending && r.assignedTo.None? then NotParticipated
    else if r.status == Completed || r.status == Rejected then Finished
    else
      assert r.status == Approved || r.status == InProgress || r.status == Pending;
      Participated
  }

  /** A word with no blank at either end is its own trim. */
  lemma TrimOfWord(w: string)
    requires |w| > 0 && !Text.IsSpace(w[0]) && !Text.IsSpace(w[|w| - 1])
    ensures Text.Trim(w) == w
  {
    Text.TrimStartOfTrimmed(w);
    Text.TrimEndOfTrimmed(w);
  }

  /** A status name is a clean list item: no comma, no surrounding blanks. */
  lemma NameIsItem(s: Status)
    ensures ',' !in StatusName(s) && StatusName(s) != ""
    ensures Text.Trim(StatusName(s)) == StatusName(s)
  {
    var n := StatusName(s);
    assert |n| > 0 && forall i :: 0 <= i < |n| ==> 'a' <= n[i] <= 'z' by {
      match s
      case Pending =>
      case Approved =>
      case InProgress =>
      case Completed =>
      case Rejected =>
    }
    LowercaseWordIsItem(n);
  }

  /** A non-empty word of lower-case letters has no comma and is its own trim. */
  lemma LowercaseWordIsItem(w: string)
    requires |w| > 0 && forall i :: 0 <= i < |w| ==> 'a' <= w[i] <= 'z'
    ensures ',' !in w && Text.Trim(w) == w
  {
    TrimOfWord(w);
  }

  /** A clean item survives the listing's trim-and-drop-empty step. */
  lemma CleanItemKept(x: string, rest: seq<string>)
    requires x != "" && Text.Trim(x) == x
    ensures Q.NonEmptyTrimmed([x] + rest) == [x] + Q.NonEmptyTrimmed(rest)
  {
    var ts := Q.TrimAll([x] + rest);
    assert ts == [x] + Q.TrimAll(rest);
    assert ts[1..] == Q.TrimAll(rest);
  }

  /** Splitting a list of two comma-free items at its comma gives the items back. */
  lemma SplitTwo(a: string, b: string)
    requires ',' !in a && ',' !in b
    ensures Text.Split(a + "," + b, ',') == [a, b]
  {
    assert a + "," + b == a + [','] + b;
    Text.SplitAfterFirstSeparator(a, ',', b);
    Text.SplitWithoutSeparator(b, ',');
  }

  /** The same for three items. */
  lemma SplitThree(a: string, b: string, c: string)
    requires ',' !in a && ',' !in b && ',' !in c
    ensures Text.Split(a + "," + b + "," + c, ',') == [a, b, c]
  {
    var bc := b + "," + c;
    assert a + "," + b + "," + c == a + [','] + bc;
    Text.SplitAfterFirstSeparator(a, ',', bc);
    SplitTwo(b, c);
  }

  /** A list with a comma is never the special value 'assigned'. */
  lemma AssignedIsNotAList(s: string)
    requires ',' in s
    ensures s != "assigned"
  {
    var word := "assigned";
    assert ',' !in word;
  }

  /** How the listing reads a list of two clean items. */
  lemma TwoItemFilter(a: string, b: string)
    requires ',' !in a && ',' !in b && a != "" && b != ""
    requires Text.Trim(a) == a && Text.Trim(b) == b
    ensures Q.ParseStatusFilter(a + "," + b) == Q.StatusIn([a, b])
  {
    var s := a + "," + b;
    assert ',' in s by { assert s[|a|] == ','; }
    AssignedIsNotAList(s);
    SplitTwo(a, b);
    assert [b] == [b] + [] && [a, b] == [a] + [b];
    CleanItemKept(b, []);
    CleanItemKept(a, [b]);
  }

  /** How the listing reads a list of three clean items. */
  lemma ThreeItemFilter(a: string, b: string, c: string)
    requires ',' !in a && ',' !in b && ',' !in c && a != "" && b != "" && c != ""
    requires Text.Trim(a) == a && Text.Trim(b) == b && Text.Trim(c) == c
    ensures Q.ParseStatusFilter(a + "," + b + "," + c) == Q.StatusIn([a, b, c])
  {
    var s := a + "," + b + "," + c;
    assert ',' in s by { assert s[|a|] == ','; }
    AssignedIsNotAList(s);
    SplitThree(a, b, c);
    assert [c] == [c] + [] && [b, c] == [b] + [c] && [a, b, c] == [a] + [b, c];
    CleanItemKept(c, []);
    CleanItemKept(b, [c]);
    CleanItemKept(a, [b, c]);
  }

  /** Status names tell statuses apart. */
  lemma SameName(s: Status, t: Status)
    ensures StatusName(s) == StatusName(t) <==> s == t
  {
    StatusNameRoundTrip(s);
    StatusNameRoundTrip(t);
  }

  /** What each tab's status query selects: the reports whose status the
      tab names. */
  lemma QuerySelects(t: Tab, r: Report)
    ensures Q.SelectedByStatus(Q.ParseStatusFilter(TabStatusQuery(t)), r) <==> r.status in TabStatuses(t)
  {
    match t
    case NotParticipated => PendingQuerySelects(t, r);
    case Participated => ParticipatedQuerySelects(t, r);
    case Finished => FinishedQuerySelects(t, r);
  }

  lemma PendingQuerySelects(t: Tab, r: Report)
    requires t == NotParticipated
    ensures Q.SelectedByStatus(Q.ParseStatusFilter(TabStatusQuery(t)), r) <==> r.status == Pending
  {
    var p := StatusName(Pending);
    NameIsItem(Pending);
    assert p != "assigned" by { assert |p| == 7; }
    assert Q.ParseStatusFilter(TabStatusQuery(t)) == Q.StatusIs(p);
    SameName(r.status, Pending);
  }

  lemma ParticipatedFilter(t: Tab)
    requires t == Participated
    ensures Q.ParseStatusFilter(TabStatusQuery(t)) ==
      Q.StatusIn([StatusName(Approved), StatusName(InProgress), StatusName(Pending)])
  {
    var a, b, c := StatusName(Approved), StatusName(InProgress), StatusName(Pending);
    NameIsItem(Approved);
    NameIsItem(InProgress);
    NameIsItem(Pending);
    ThreeItemFilter(a, b, c);
  }

  lemma ParticipatedQuerySelects(t: Tab, r: Report)
    requires t == Participated
    ensures Q.SelectedByStatus(Q.ParseStatusFilter(TabStatusQuery(t)), r) <==>
      r.status == Approved || r.status == InProgress || r.status == Pending
  {
    ParticipatedFilter(t);
    NameInThree(r.status, Approved, InProgress, Pending);
  }

  /** A status's name is among three statuses' names exactly when it is one of them. */
  lemma NameInThree(s: Status, a: Status, b: Status, c: Status)
    ensures StatusName(s) in [StatusName(a), StatusName(b), StatusName(c)] <==> s == a || s == b || s == c
  {
    var names := [StatusName(a), StatusName(b), StatusName(c)];
    assert StatusName(s) in names <==> StatusName(s) == names[0] || StatusName(s) == names[1] || StatusName(s) == names[2];
    SameName(s, a);
    SameName(s, b);
    SameName(s, c);
  }

  lemma FinishedFilter(t: Tab)
    requires t == Finished
    ensures Q.ParseStatusFilter(TabStatusQuery(t)) == Q.StatusIn([StatusName(Completed), StatusName(Rejected)])
  {
    var a, b := StatusName(Completed), StatusName(Rejected);
    NameIsItem(Completed);
    NameIsItem(Rejected);
    TwoItemFilter(a, b);
  }

  lemma FinishedQuerySelects(t: Tab, r: Report)
    requires t == Finished
    ensures Q.SelectedByStatus(Q.ParseStatusFilter(TabStatusQuery(t)), r) <==>
      r.status == Completed || r.status == Rejected
  {
    FinishedFilter(t);
    NameInTwo(r.status, Completed, Rejected);
  }

  /** The same for two statuses. */
  lemma NameInTwo(s: Status, a: Status, b: Status)
    ensures StatusName(s) in [StatusName(a), StatusName(b)] <==> s == a || s == b
  {
    var names := [StatusName(a), StatusName(b)];
    assert StatusName(s) in names <==> StatusName(s) == names[0] || StatusName(s) == names[1];
    SameName(s, a);
    SameName(s, b);
  }

  /** A report is shown by no tab but the one TabOf names; when that tab's
      query matches no more than a page of reports, that tab shows it. */
  lemma AtMostOneTab(reports: L.Store, id: Id, key: string, fetched: set<Id>)
    requires id in reports && ParseTab(key).Some?
    requires Q.NewestFirstPage(reports, TabMatches(reports, ParseTab(key).value), fetched, TabPageSize)
    ensures id in TabReports(reports, key, fetched) ==> TabOf(reports[id]) == ParseTab(key).value
    ensures |TabMatches(reports, ParseTab(key).value)| <= TabPageSize ==>
      (id in TabReports(reports, key, fetched) <==> TabOf(reports[id]) == ParseTab(key).value)
  {
    var t, r := ParseTab(key).value, reports[id];
    var matches := TabMatches(reports, t);
    QuerySelects(t, r);
    assert id in matches <==> r.status in TabStatuses(t);
    if |matches| <= TabPageSize {
      Q.SmallResultWhole(reports, matches, fetched, TabPageSize);
    }
  }

  /** A report with a page's worth of newer reports matching its tab's
      query is shown by no tab: its own tab's page is full of newer ones
      (twelve newer assigned pending reports hide an older unassigned one). */
  lemma HiddenBehindNewer(reports: L.Store, id: Id, key: string, fetched: set<Id>)
    requires id in reports && ParseTab(key).Some?
    requires Q.NewestFirstPage(reports, TabMatches(reports, ParseTab(key).value), fetched, TabPageSize)
    requires |set n | n in TabMatches(reports, TabOf(reports[id])) && reports[n].createdAt > reports[id].createdAt| >= TabPageSize
    ensures id !in TabReports(reports, key, fetched)
  {
    var t := ParseTab(key).value;
    AtMostOneTab(reports, id, key, fetched);
    if t == TabOf(reports[id]) {
      Q.OlderThanPageLeftOut(reports, TabMatches(reports, t), fetched, TabPageSize, id);
    }
  }

  /** The modal's form. */
  datatype UpdateForm = UpdateForm(status: string, priority: string)

  /** The status and priority choices the modal offers. */
  const StatusOptions: seq<string> := ["pending", "approved", "rejected", "inprogress"]
  const PriorityOptionsAsWritten: seq<string> := ["normal", "high", "urgent"]
  /** The priority choices the schema accepts. */
  const PriorityOptions: seq<string> := ["low", "medium", "high"]

  /** handleManage: the form starts from the report's own status and
      priority ('normal' would stand in for a missing priority, which a
      stored report never has), and the worker choice from the current
      assignee. */
  function Prefill(status: Status, priority: string, assignee: Option<Id>): (r: (UpdateForm, string))
    ensures r.0.status == StatusName(status)
    ensures r.0.priority == if priority == "" then "normal" else priority
    ensures r.1 == if assignee.Some? then assignee.value else ""
  {
    (UpdateForm(StatusName(status), if priority == "" then "normal" else priority),
     if assignee.Some? then assignee.value else "")
  }

  /** The body of the status PATCH. */
  datatype StatusPayload = StatusPayload(status: string, priority: string, reasonType: string, reasonText: string)

  /** handleUpdateStatus: a rejection carries reasonType 'Other' and the
      trimmed reason; otherwise no reason is sent. */
  function Payload(form: UpdateForm, rejectReason: string): (p: StatusPayload)
    ensures p.status == form.status && p.priority == form.priority
    ensures form.status == "rejected" ==> p.reasonType == "Other" && p.reasonText == Text.Trim(rejectReason)
    ensures form.status != "rejected" ==> p.reasonType == "" && p.reasonText == ""
    ensures L.RejectReason(p.reasonType, p.reasonText) == if form.status == "rejected" then Text.Trim(rejectReason) else ""
  {
    if form.status == "rejected" then StatusPayload(form.status, form.priority, "Other", Text.Trim(rejectReason))
    else StatusPayload(form.status, form.priority, "", "")
  }

  /** The Update button's `disabled`: the button is enabled exactly when no
      update is in flight and a rejection carries a reason that is not blank. */
  function UpdateDisabled(updating: bool, form: UpdateForm, rejectReason: string): (disabled: bool)
    ensures !disabled <==> !updating && (form.status == "rejected" ==> !Text.IsBlank(rejectReason))
  {
    updating || (form.status == "rejected" && Text.Trim(rejectReason) == "")
  }

  /** The message an authority's request for 'completed' meets. */
  const CompletedRefusal := "Authority cannot mark report as completed. Workers complete with proof."

  /** A status the form can hold is a schema status name: one of the modal's
      options, or the report's own status as pre-filled, 'completed'
      included (Manage is offered on every tab). A request the enabled
      button sends passes the handler's checks before the lookup, except
      that a pre-filled 'completed' is refused; a rejection carries its
      reason, which is never blank. */
  lemma EnabledUpdatePassesRequestChecks(form: UpdateForm, rejectReason: string)
    requires ParseStatus(form.status).Some?
    requires !UpdateDisabled(false, form, rejectReason)
    ensures
      var p := Payload(form, rejectReason);
      L.StatusRequestError(Authority, p.status, p.reasonType)
        == (if form.status == "completed" then Some(Forbidden(CompletedRefusal)) else None)
      && (form.status == "rejected" ==> L.RejectReason(p.reasonType, p.reasonText) != "")
  {
  }

  /** The modal's status options and the pre-filled statuses are schema
      statuses; 'completed' is pre-filled but not offered. */
  lemma FormStatuses(s: Status, priority: string, assignee: Option<Id>)
    ensures forall o :: o in StatusOptions ==> ParseStatus(o).Some? && o != "completed"
    ensures ParseStatus(Prefill(s, priority, assignee).0.status) == Some(s)
  {
    StatusNameRoundTrip(s);
  }

  /** A completed report opened with Manage: the button is enabled as
      pre-filled, and the request it sends is refused with 403. */
  lemma PrefilledCompletedRefused(reports: L.Store, caller: Caller, id: Id, priority: string,
                                  assignee: Option<Id>, rejectReason: string, now: int)
    requires caller.role == Authority
    ensures
      var form := Prefill(Completed, priority, assignee).0;
      var p := Payload(form, rejectReason);
      !UpdateDisabled(false, form, rejectReason)
      && L.UpdateStatus(reports, caller, id, p.status, p.priority, p.reasonType, p.reasonText, now)
           == L.Outcome(Forbidden(CompletedRefusal), reports)
  {
    var form := Prefill(Completed, priority, assignee).0;
    FormStatuses(Completed, priority, assignee);
    EnabledUpdatePassesRequestChecks(form, rejectReason);
  }

  /** Of the priorities the modal offers, the schema knows only 'high'. */
  lemma OfferedOutsideSchema(priority: string)
    requires priority in PriorityOptionsAsWritten
    ensures ParsePriority(priority).None? <==> priority != "high"
  {
  }

  /** With the priorities the modal offers, picking 'normal' or 'urgent'
      makes the save fail (the schema knows neither), unless the status is
      the pre-filled 'completed', which is refused first. */
  lemma OfferedPriorityRefused(reports: L.Store, caller: Caller, id: Id, form: UpdateForm, rejectReason: string, now: int)
    requires caller.role == Authority && id in reports
    requires ParseStatus(form.status).Some?
    requires form.priority in PriorityOptionsAsWritten && form.priority != "high"
    requires !UpdateDisabled(false, form, rejectReason)
    ensures
      var p := Payload(form, rejectReason);
      L.UpdateStatus(reports, caller, id, p.status, p.priority, p.reasonType, p.reasonText, now)
        == L.Outcome(if form.status == "completed" then Forbidden(CompletedRefusal) else ServerError(ValidationFailed), reports)
  {
    EnabledUpdatePassesRequestChecks(form, rejectReason);
    OfferedOutsideSchema(form.priority);
  }

  /** A stored report's priority, pre-filled, is one of the schema's. */
  lemma PrefilledPriorityInSchema(s: Status, p: Priority, assignee: Option<Id>)
    ensures Prefill(s, PriorityName(p), assignee).0.priority in PriorityOptions
  {
  }

  /** Every schema priority parses. */
  lemma OptionsParse(form: UpdateForm)
    requires form.priority in PriorityOptions
    ensures ParsePriority(form.priority).Some?
  {
  }

  /** With the schema's priorities offered instead (a stored report's own
      priority is one), an enabled update of an existing report by a
      signed-in authority succeeds exactly when its status is not the
      pre-filled 'completed'. */
  lemma OfferedPriorityAccepted(reports: L.Store, caller: Caller, id: Id, form: UpdateForm, rejectReason: string, now: int)
    requires L.StoreValid(reports)
    requires caller.role == Authority && caller.id != "" && id in reports
    requires ParseStatus(form.status).Some? && form.priority in PriorityOptions
    requires !UpdateDisabled(false, form, rejectReason)
    ensures
      var p := Payload(form, rejectReason);
      (L.UpdateStatus(reports, caller, id, p.status, p.priority, p.reasonType, p.reasonText, now).response == Ok
       <==> form.status != "completed")
  {
    var p := Payload(form, rejectReason);
    EnabledUpdatePassesRequestChecks(form, rejectReason);
    OptionsParse(form);
    L.UpdateStatusSucceeds(reports, caller, id, p.status, p.priority, p.reasonType, p.reasonText, now);
  }

  /** handleAssignWorker: nothing is sent without a chosen worker. */
  function AssignRequest(assignWorker: Id): (workerId: Option<Id>)
    ensures workerId.None? <==> assignWorker == ""
    ensures workerId.Some? ==> workerId.value == assignWorker
  {
    if assignWorker == "" then None else Some(assignWorker)
  }

  /** So an assignment the page sends never meets "Worker ID is required". */
  lemma SentAssignHasWorker(reports: L.Store, accounts: map<Id, Account>, caller: Caller, id: Id, assignWorker: Id, now: int)
    requires AssignRequest(assignWorker).Some?
    ensures L.Assign(reports, accounts, caller, id, AssignRequest(assignWorker).value, now).response
      != BadRequest("Worker ID is required")
  {
  }
}
