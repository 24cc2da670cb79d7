/** The read side of the reports collection: the filters of the public listing
    (getReports in backend/controllers/reportController.js), its paging
    arithmetic, the three worker queues and the worker list
    (backend/controllers/workerController.js). Listings are modelled as the
    set of matching report ids; their order is not part of this model. */
module Queries {
  import opened Common
  import opened Text
  import opened ReportModel
  import L = Lifecycle

  // ---------------------------------------------------------------------
  // The status filter

  /** What the `status` query parameter selects. */
  datatype StatusFilter =
    | AnyStatus                   // parameter absent or empty
    | AssignedOnly                // `assigned`: reports with an assignee, whatever their status
    | StatusIn(names: seq<string>) // a comma-separated list
    | StatusIs(name: string)      // any other text: exact equality

  /** Every part trimmed: `.map(s => s.trim())`. */
  function TrimAll(parts: seq<string>): (ts: seq<string>)
    ensures |ts| == |parts|
    ensures forall i :: 0 <= i < |parts| ==> ts[i] == Trim(parts[i])
  {
    seq(|parts|, i requires 0 <= i < |parts| => Trim(parts[i]))
  }

  /** The items that are not empty, in order: `.filter(Boolean)` on strings. */
  function NonEmptyItems(items: seq<string>): (r: seq<string>)
    ensures |r| <= |items|
    ensures forall i :: 0 <= i < |r| ==> r[i] != ""
  {
    if items == [] then []
    else if items[0] == "" then NonEmptyItems(items[1..])
    else [items[0]] + NonEmptyItems(items[1..])
  }

  /** The filter keeps exactly the non-empty items. */
  lemma {:induction false} NonEmptyItemsMembers(items: seq<string>, x: string)
    ensures x in NonEmptyItems(items) <==> x != "" && x in items
  {
    if items != [] {
      NonEmptyItemsMembers(items[1..], x);
      assert items == [items[0]] + items[1..];
    }
  }

  /** The trimmed parts that are not empty, in order: `.map(s => s.trim()).filter(Boolean)`. */
  function NonEmptyTrimmed(parts: seq<string>): seq<string>
  {
    NonEmptyItems(TrimAll(parts))
  }

  /** Some part trims to `x`. */
  predicate TrimsTo(parts: seq<string>, x: string)
  {
    exists i :: 0 <= i < |parts| && Trim(parts[i]) == x
  }

  /** The kept items are exactly the non-empty trims of the parts. */
  lemma NonEmptyTrimmedMembers(parts: seq<string>, x: string)
    ensures x in NonEmptyTrimmed(parts) <==> x != "" && TrimsTo(parts, x)
  {
    var ts := TrimAll(parts);
    NonEmptyItemsMembers(ts, x);
    if x in ts {
      var i :| 0 <= i < |ts| && ts[i] == x;
      assert Trim(parts[i]) == x;
    }
    if TrimsTo(parts, x) {
      var i :| 0 <= i < |parts| && Trim(parts[i]) == x;
      assert ts[i] == x;
    }
  }

  function ParseStatusFilter(status: string): (f: StatusFilter)
    ensures status == "" ==> f == AnyStatus
    ensures status == "assigned" ==> f == AssignedOnly
    ensures status != "assigned" && ',' in status ==> f == StatusIn(NonEmptyTrimmed(Split(status, ',')))
    ensures status != "" && status != "assigned" && ',' !in status ==> f == StatusIs(status)
  {
    if status == "" then AnyStatus
    else if status == "assigned" then AssignedOnly
    else if ',' in status then StatusIn(NonEmptyTrimmed(Split(status, ',')))
    else StatusIs(status)
  }

  /** Whether a report passes the status filter. A single status text
      selects the reports of the status it names, and nothing when it names
      none. */
  function SelectedByStatus(f: StatusFilter, r: Report): (sel: bool)
    ensures f.AnyStatus? ==> sel
    ensures f.StatusIs? ==> (sel <==> ParseStatus(f.name) == Some(r.status))
  {
    match f
    case AnyStatus => true
    case AssignedOnly => r.assignedTo.Some?
    case StatusIn(names) => StatusName(r.status) in names
    case StatusIs(name) => StatusName(r.status) == name
  }

  /** `assigned` selects by assignee only: any status passes. */
  lemma AssignedIgnoresStatus(r: Report, s: Status)
    ensures SelectedByStatus(ParseStatusFilter("assigned"), r) <==> r.assignedTo.Some?
    ensures SelectedByStatus(ParseStatusFilter("assigned"), r) == SelectedByStatus(ParseStatusFilter("assigned"), r.(status := s))
  {
  }

  /** A comma list selects exactly the reports whose status is one of its
      parts once trimmed; blank parts select nothing. */
  lemma CommaListSelects(status: string, r: Report)
    requires status != "assigned" && ',' in status
    ensures SelectedByStatus(ParseStatusFilter(status), r) <==> TrimsTo(Split(status, ','), StatusName(r.status))
  {
    var parts := Split(status, ',');
    var names := NonEmptyTrimmed(parts);
    var n := StatusName(r.status);
    assert ParseStatusFilter(status) == StatusIn(names);
    assert SelectedByStatus(StatusIn(names), r) <==> n in names;
    NonEmptyTrimmedMembers(parts, n);
    StatusNameNonEmpty(r.status);
  }

  lemma StatusNameNonEmpty(s: Status)
    ensures StatusName(s) != ""
  {
  }

  /** Any other non-empty text is compared with the status name exactly. */
  lemma PlainStatusSelects(status: string, r: Report)
    requires status != "" && status != "assigned" && ',' !in status
    ensures SelectedByStatus(ParseStatusFilter(status), r) <==> StatusName(r.status) == status
  {
  }

  // ---------------------------------------------------------------------
  // The issue-id filter

  /** A character of the random issue-id suffix, `[A-Z0-9]`. */
  predicate IsSuffixChar(c: char)
  {
    'A' <= c <= 'Z' || '0' <= c <= '9'
  }

  /** `id` is `base` itself or `base` followed by a dash and six suffix
      characters: the pattern `^base(?:-[A-Z0-9]{6})?$`. */
  predicate BaseOrSuffixed(id: string, base: string)
  {
    || id == base
    || (&& |id| == |base| + 7 && id[..|base|] == base && id[|base|] == '-'
        && forall i :: |base| + 1 <= i < |id| ==> IsSuffixChar(id[i]))
  }

  const IssuePrefix: string := "GRS-"

  /** What the `reportId` query parameter selects. */
  datatype IdFilter =
    | AnyId                  // parameter absent or empty
    | SequenceNumber(seqPart: string) // `GRS-X` with one dash: `GRS-X` or `GRS-X-XXXXXX`
    | ExactId(id: string)    // `GRS-...` with more dashes: that id only
    | BareId(text: string)   // anything else: `X`, `GRS-X` or `GRS-X-XXXXXX`

  function ParseIdFilter(reportId: string): (f: IdFilter)
    ensures reportId == "" ==> f == AnyId
    ensures reportId != "" && !StartsWith(Trim(reportId), IssuePrefix) ==> f == BareId(Trim(reportId))
    ensures reportId != "" && StartsWith(Trim(reportId), IssuePrefix) && CountChar(Trim(reportId), '-') != 1 ==>
      f == ExactId(Trim(reportId))
  {
    if reportId == "" then AnyId
    else
      var idInput := Trim(reportId);
      if StartsWith(idInput, IssuePrefix) then
        var parts := Split(idInput, '-');
        if |parts| == 2 then SequenceNumber(parts[1]) else ExactId(idInput)
      else BareId(idInput)
  }

  /** Whether a report's issue id passes the id filter: each filter selects
      the id it was given, the sequence number with its prefix put back. */
  function SelectedById(f: IdFilter, issueId: string): (sel: bool)
    ensures f.AnyId? ==> sel
    ensures f.SequenceNumber? && issueId == IssuePrefix + f.seqPart ==> sel
    ensures f.ExactId? ==> (sel <==> issueId == f.id)
    ensures f.BareId? && (issueId == f.text || issueId == IssuePrefix + f.text) ==> sel
  {
    match f
    case AnyId => true
    case SequenceNumber(x) => BaseOrSuffixed(issueId, IssuePrefix + x)
    case ExactId(x) => issueId == x
    case BareId(x) => issueId == x || BaseOrSuffixed(issueId, IssuePrefix + x)
  }

  /** A trimmed `GRS-X` with exactly one dash selects `GRS-X` and `GRS-X-`
      followed by six suffix characters, and nothing else. */
  lemma SequenceNumberSelects(reportId: string, issueId: string)
    requires reportId != "" && StartsWith(Trim(reportId), IssuePrefix) && CountChar(Trim(reportId), '-') == 1
    ensures ParseIdFilter(reportId) == SequenceNumber(Trim(reportId)[4..])
    ensures SelectedById(ParseIdFilter(reportId), issueId) <==> BaseOrSuffixed(issueId, Trim(reportId))
  {
    var t := Trim(reportId);
    var g := "GRS";
    assert IssuePrefix == g + "-" && '-' !in g;
    OneDashSplit(g, t);
    assert IssuePrefix + t[4..] == t;
  }

  /** A text that starts with `p-`, where `p` has no dash, and has one dash
      splits into `p` and the rest. */
  lemma OneDashSplit(p: string, t: string)
    requires '-' !in p && StartsWith(t, p + "-") && CountChar(t, '-') == 1
    ensures Split(t, '-') == [p, t[|p| + 1..]]
  {
    var x := t[|p| + 1..];
    assert t == p + ['-'] + x;
    CountCharAppend(p + ['-'], x, '-');
    CountCharAppend(p, ['-'], '-');
    SplitAfterFirstSeparator(p, '-', x);
    SplitWithoutSeparator(x, '-');
  }

  /** A `GRS-` input with more dashes selects only itself. */
  lemma LongIdSelectsItself(reportId: string, issueId: string)
    requires reportId != "" && StartsWith(Trim(reportId), IssuePrefix) && CountChar(Trim(reportId), '-') != 1
    ensures SelectedById(ParseIdFilter(reportId), issueId) <==> issueId == Trim(reportId)
  {
  }

  /** A bare `X` selects `X`, `GRS-X` and `GRS-X-` followed by six suffix characters. */
  lemma BareIdSelects(reportId: string, issueId: string)
    requires reportId != "" && !StartsWith(Trim(reportId), IssuePrefix)
    ensures SelectedById(ParseIdFilter(reportId), issueId) <==>
      issueId == Trim(reportId) || BaseOrSuffixed(issueId, IssuePrefix + Trim(reportId))
  {
  }

  lemma {:induction false} CountCharAppend(a: string, b: string, c: char)
    ensures CountChar(a + b, c) == CountChar(a, c) + CountChar(b, c)
  {
    if a == [] {
      assert a + b == b;
    } else {
      assert (a + b)[0] == a[0];
      assert (a + b)[1..] == a[1..] + b;
      CountCharAppend(a[1..], b, c);
    }
  }

  // ---------------------------------------------------------------------
  // The whole listing filter and its paging

  /** The query parameters of the listing that this model covers (the free
      text `search` is not part of this model). "" is an absent parameter. */
  datatype ListQuery = ListQuery(status: string, priority: string, createdBy: Id, reportId: string)

  /** The listing's whole filter: every given parameter must pass. An empty
      query selects every report; a creator or priority, when given, is
      matched exactly. */
  function Selected(q: ListQuery, r: Report): (sel: bool)
    ensures q == ListQuery("", "", "", "") ==> sel
    ensures sel && q.createdBy != "" ==> r.createdBy == q.createdBy
    ensures sel && q.priority != "" ==> ParsePriority(q.priority) == Some(r.priority)
  {
    && SelectedByStatus(ParseStatusFilter(q.status), r)
    && (q.priority == "" || PriorityName(r.priority) == q.priority)
    && (q.createdBy == "" || r.createdBy == q.createdBy)
    && SelectedById(ParseIdFilter(q.reportId), r.issueId)
  }

  /** The ids of the reports the listing counts as `totalReports`. */
  function Matching(reports: L.Store, q: ListQuery): (ids: set<Id>)
    ensures forall id :: id in ids <==> id in reports && Selected(q, reports[id])
    ensures q == ListQuery("", "", "", "") ==> ids == reports.Keys
  {
    set id | id in reports && Selected(q, reports[id])
  }

  /** `page` is what the listing returns for a query that `matches` selects
      under its default order: the newest `limit` of them by creation time
      (reports created at the same instant may come in either order). */
  predicate NewestFirstPage(reports: L.Store, matches: set<Id>, page: set<Id>, limit: nat)
  {
    && page <= matches && matches <= reports.Keys
    && |page| == (if |matches| <= limit then |matches| else limit)
    && forall a, b :: a in page && b in matches && b !in page ==> reports[a].createdAt >= reports[b].createdAt
  }

  /** A subset is no larger than its superset. */
  lemma SubsetSize<T>(a: set<T>, b: set<T>)
    requires a <= b
    ensures |a| <= |b|
    ensures |a| == |b| ==> a == b
  {
    assert b == a + (b - a);
    assert a * (b - a) == {};
  }

  /** A query matching no more than `limit` reports is returned whole. */
  lemma SmallResultWhole(reports: L.Store, matches: set<Id>, page: set<Id>, limit: nat)
    requires NewestFirstPage(reports, matches, page, limit) && |matches| <= limit
    ensures page == matches
  {
    SubsetSize(page, matches);
  }

  /** A match with `limit` strictly newer matches is not on the page. */
  lemma OlderThanPageLeftOut(reports: L.Store, matches: set<Id>, page: set<Id>, limit: nat, id: Id)
    requires NewestFirstPage(reports, matches, page, limit) && id in reports
    requires |set n | n in matches && reports[n].createdAt > reports[id].createdAt| >= limit
    ensures id !in page
  {
    var newer := set n | n in matches && reports[n].createdAt > reports[id].createdAt;
    if id in page {
      forall n | n in newer
        ensures n in page - {id}
      {
      }
      SubsetSize(newer, page - {id});
      assert false;
    }
  }

  /** What `parseInt` gives for a page or limit parameter: an integer, or
      NaN when the text does not start with a number. NaN spreads through
      arithmetic. */
  datatype Parsed = Num(value: int) | NaN

  /** The defaults when the parameters are absent. */
  const DefaultPage: Parsed := Num(1)
  const DefaultLimit: Parsed := Num(12)

  /** The number of documents skipped before the requested page,
      `(page - 1) * limit`, computed without any check. */
  function Skip(page: Parsed, limit: Parsed): (n: Parsed)
    ensures n.NaN? <==> page.NaN? || limit.NaN?
    ensures n.Num? ==> n.value == (page.value - 1) * limit.value
    ensures n.Num? && limit.value > 0 ==> (n.value < 0 <==> page.value < 1)
  {
    if page.NaN? || limit.NaN? then NaN
    else
      var n := (page.value - 1) * limit.value;
      if limit.value > 0 then MulSign(page.value - 1, limit.value); Num(n) else Num(n)
  }

  lemma MulSign(a: int, b: int)
    requires b > 0
    ensures a * b < 0 <==> a < 0
  {
    if a >= 0 {
      MulMonotone(0, a, b);
    }
  }

  /** The aggregation accepts the paging stages only for a skip that is a
      number no less than zero and a limit that is a number above zero;
      otherwise the pipeline fails and the handler answers 500. */
  predicate PagingAccepted(page: Parsed, limit: Parsed)
  {
    Skip(page, limit).Num? && Skip(page, limit).value >= 0 && limit.Num? && limit.value > 0
  }

  /** So a listing is answered exactly for a page of at least 1 and a
      positive limit; page 0, a negative page, a non-numeric page or limit,
      and a limit below 1 give a server error. */
  lemma PagingAcceptedIff(page: Parsed, limit: Parsed)
    ensures PagingAccepted(page, limit) <==> page.Num? && page.value >= 1 && limit.Num? && limit.value >= 1
  {
  }

  /** The defaults are accepted: the first page of twelve. */
  lemma DefaultsAccepted()
    ensures PagingAccepted(DefaultPage, DefaultLimit) && Skip(DefaultPage, DefaultLimit) == Num(0)
  {
  }

  /** The listing's answer for its paging parameters: the server error the
      refused stages produce, or none. */
  function PagingError(page: Parsed, limit: Parsed): (err: Option<Response>)
    ensures err.None? <==> PagingAccepted(page, limit)
    ensures err.Some? ==> err.value == ServerError(InvalidPaging)
  {
    if PagingAccepted(page, limit) then None else Some(ServerError(InvalidPaging))
  }

  /** Math.ceil(total / limit): zero for an empty result. */
  function TotalPages(total: nat, limit: nat): (pages: nat)
    requires limit > 0
    ensures pages * limit >= total
    ensures pages > 0 ==> (pages - 1) * limit < total
    ensures pages == 0 <==> total == 0
  {
    (total + limit - 1) / limit
  }

  /** The positions a page shows within the full, ordered result, or None
      when the paging stages are refused. */
  function PageRange(total: nat, page: Parsed, limit: Parsed): (r: Option<(nat, nat)>)
    ensures r.Some? <==> PagingAccepted(page, limit)
    ensures r.Some? ==> r.value.0 <= r.value.1 <= total && r.value.1 - r.value.0 <= limit.value
    ensures r.Some? && r.value.0 < r.value.1 ==> r.value.0 == Skip(page, limit).value
  {
    if !PagingAccepted(page, limit) then None
    else
      var from := Skip(page, limit).value;
      if from >= total then Some((total, total))
      else Some((from, if from + limit.value <= total then from + limit.value else total))
  }

  lemma MulMonotone(a: int, b: int, c: nat)
    requires a <= b
    ensures a * c <= b * c
  {
  }

  /** The page that shows position `k`: its range contains `k` and it lies
      within the page count the listing reports. */
  lemma PageOfPosition(total: nat, limit: nat, k: nat)
    requires limit > 0 && k < total
    ensures var p := k / limit + 1;
      && 1 <= p <= TotalPages(total, limit)
      && PageRange(total, Num(p), Num(limit)).Some?
      && PageRange(total, Num(p), Num(limit)).value.0 <= k < PageRange(total, Num(p), Num(limit)).value.1
  {
    var p := k / limit + 1;
    var pages := TotalPages(total, limit);
    assert (p - 1) * limit <= k < (p - 1) * limit + limit;
    PagingAcceptedIff(Num(p), Num(limit));
    if p > pages {
      MulMonotone(pages, p - 1, limit);
      assert false;
    }
  }

  /** No other page shows position `k`. */
  lemma OnlyPageOfPosition(total: nat, limit: nat, k: nat, q: Parsed)
    requires limit > 0 && k < total
    requires PageRange(total, q, Num(limit)).Some?
    requires PageRange(total, q, Num(limit)).value.0 <= k < PageRange(total, q, Num(limit)).value.1
    ensures q == Num(k / limit + 1)
  {
    PagingAcceptedIff(q, Num(limit));
    var p := k / limit + 1;
    var qv := q.value;
    assert (p - 1) * limit <= k < (p - 1) * limit + limit;
    assert (qv - 1) * limit <= k < (qv - 1) * limit + limit;
    if qv < p {
      MulMonotone(qv, p - 1, limit);
      assert false;
    } else if qv > p {
      MulMonotone(p, qv - 1, limit);
      assert false;
    }
  }

  // ---------------------------------------------------------------------
  // Worker queries

  /** getWorkers: the users whose role is worker. */
  function Workers(accounts: map<Id, Account>): (ids: set<Id>)
    ensures forall id :: id in ids <==> id in accounts && accounts[id].role == Worker
  {
    set id | id in accounts && accounts[id].role == Worker
  }

  /** A worker's queue: the reports assigned to them whose status is one of `statuses`. */
  function Queue(reports: L.Store, worker: Id, statuses: set<Status>): (ids: set<Id>)
    ensures forall id :: id in ids <==>
      id in reports && reports[id].assignedTo == Some(worker) && reports[id].status in statuses
  {
    set id | id in reports && reports[id].assignedTo == Some(worker) && reports[id].status in statuses
  }

  const AssignedStatuses: set<Status> := {Pending, Approved}
  const InProgressStatuses: set<Status> := {InProgress}
  const FinishedStatuses: set<Status> := {Completed, Rejected}

  function AssignedQueue(reports: L.Store, worker: Id): (ids: set<Id>)
    ensures forall id :: id in ids <==>
      id in reports && reports[id].assignedTo == Some(worker) && reports[id].status in {Pending, Approved}
  {
    Queue(reports, worker, AssignedStatuses)
  }

  function InProgressQueue(reports: L.Store, worker: Id): (ids: set<Id>)
    ensures forall id :: id in ids <==>
      id in reports && reports[id].assignedTo == Some(worker) && reports[id].status == InProgress
  {
    Queue(reports, worker, InProgressStatuses)
  }

  function CompletedQueue(reports: L.Store, worker: Id): (ids: set<Id>)
    ensures forall id :: id in ids <==>
      id in reports && reports[id].assignedTo == Some(worker) && reports[id].status in {Completed, Rejected}
  {
    Queue(reports, worker, FinishedStatuses)
  }

  /** The three queues split a worker's reports: each report assigned to the
      worker is in exactly one of them. */
  lemma QueuesPartition(reports: L.Store, worker: Id)
    ensures AssignedQueue(reports, worker) + InProgressQueue(reports, worker) + CompletedQueue(reports, worker)
         == set id | id in reports && reports[id].assignedTo == Some(worker)
    ensures AssignedQueue(reports, worker) * InProgressQueue(reports, worker) == {}
    ensures AssignedQueue(reports, worker) * CompletedQueue(reports, worker) == {}
    ensures InProgressQueue(reports, worker) * CompletedQueue(reports, worker) == {}
  {
  }

  /** A worker can accept exactly the reports of their assigned queue. */
  lemma AcceptExactlyAssignedQueue(reports: L.Store, caller: Caller, id: Id, now: int)
    requires L.StoreValid(reports) && caller.role == Worker && caller.id != ""
    ensures L.Accept(reports, caller, id, now).response == Ok <==> id in AssignedQueue(reports, caller.id)
  {
  }

  /** Replacing one report changes a queue at that report only. */
  lemma QueueAfterReplace(reports: L.Store, id: Id, r: Report, worker: Id, statuses: set<Status>)
    requires id in reports
    ensures Queue(reports[id := r], worker, statuses) ==
      (Queue(reports, worker, statuses) - {id}) + (if r.assignedTo == Some(worker) && r.status in statuses then {id} else {})
  {
  }

  /** A successful accept moves the report from the worker's assigned queue
      to their in-progress queue and leaves every other queue entry alone. */
  lemma AcceptMovesBetweenQueues(reports: L.Store, caller: Caller, id: Id, now: int)
    requires L.Accept(reports, caller, id, now).response == Ok
    ensures var after := L.Accept(reports, caller, id, now).reports;
      && AssignedQueue(after, caller.id) == AssignedQueue(reports, caller.id) - {id}
      && InProgressQueue(after, caller.id) == InProgressQueue(reports, caller.id) + {id}
      && CompletedQueue(after, caller.id) == CompletedQueue(reports, caller.id)
  {
    var after := L.Accept(reports, caller, id, now).reports;
    var r := after[id];
    assert after == reports[id := r];
    assert r.status == InProgress && r.assignedTo == Some(caller.id);
    QueueAfterReplace(reports, id, r, caller.id, AssignedStatuses);
    QueueAfterReplace(reports, id, r, caller.id, InProgressStatuses);
    QueueAfterReplace(reports, id, r, caller.id, FinishedStatuses);
    assert id in reports && reports[id].assignedTo == Some(caller.id) && reports[id].status in AssignedStatuses;
  }

  /** Only a worker of the users collection can be assigned. */
  lemma AssignedToAWorker(reports: L.Store, accounts: map<Id, Account>, caller: Caller, id: Id, workerId: Id, now: int)
    requires L.Assign(reports, accounts, caller, id, workerId, now).response == Ok
    ensures workerId in Workers(accounts)
    ensures L.Assign(reports, accounts, caller, id, workerId, now).reports[id].assignedTo == Some(workerId)
  {
  }
}
