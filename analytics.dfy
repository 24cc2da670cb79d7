/** The dashboards' figures (backend/controllers/analyticsController.js), as
    counts over the reports collection taken as a sequence of documents. The
    database's `$group` stages are stated by what they produce; the handler's
    own loop over the status groups is a method. */
module Analytics {
  import opened Common
  import opened ReportModel
  import Ordering

  predicate Counted(r: Report, worker: Option<Id>, statuses: set<Status>)
  {
    r.status in statuses && (worker.Some? ==> r.assignedTo == worker)
  }

  /** countDocuments with an optional `assignedTo` and a `status` among
      `statuses`. */
  function Count(reports: seq<Report>, worker: Option<Id>, statuses: set<Status>): (n: nat)
    ensures n <= |reports|
  {
    if reports == [] then 0
    else
      var init := reports[..|reports| - 1];
      Count(init, worker, statuses) + (if Counted(reports[|reports| - 1], worker, statuses) then 1 else 0)
  }

  /** A count is zero exactly when no report qualifies, and all of them
      exactly when every report does. */
  lemma {:induction false} CountBounds(reports: seq<Report>, worker: Option<Id>, statuses: set<Status>)
    ensures Count(reports, worker, statuses) == 0 <==>
      forall i :: 0 <= i < |reports| ==> !Counted(reports[i], worker, statuses)
    ensures Count(reports, worker, statuses) == |reports| <==>
      forall i :: 0 <= i < |reports| ==> Counted(reports[i], worker, statuses)
  {
    if reports != [] {
      var init := reports[..|reports| - 1];
      CountBounds(init, worker, statuses);
      assert forall i :: 0 <= i < |init| ==> init[i] == reports[i];
    }
  }

  /** The reports counted at all: every report, or the worker's. */
  function CountAny(reports: seq<Report>, worker: Option<Id>): (n: nat)
    ensures worker.None? ==> n == |reports|
  {
    if reports == [] then 0
    else
      var last := reports[|reports| - 1];
      CountAny(reports[..|reports| - 1], worker) + (if worker.Some? ==> last.assignedTo == worker then 1 else 0)
  }

  /** The five status counts partition the counted reports; the `$in` of the
      pending queue is the sum of its two statuses. */
  lemma {:induction false} StatusPartition(reports: seq<Report>, worker: Option<Id>)
    ensures CountAny(reports, worker) == Count(reports, worker, {Pending}) + Count(reports, worker, {Approved})
      + Count(reports, worker, {InProgress}) + Count(reports, worker, {Completed}) + Count(reports, worker, {Rejected})
    ensures Count(reports, worker, {Pending, Approved}) == Count(reports, worker, {Pending}) + Count(reports, worker, {Approved})
  {
    if reports != [] {
      StatusPartition(reports[..|reports| - 1], worker);
      match reports[|reports| - 1].status
      case Pending =>
      case Approved =>
      case InProgress =>
      case Completed =>
      case Rejected =>
    }
  }

  /** totalReports is the sum of the five status counts. */
  lemma TotalIsSumOfStatusCounts(reports: seq<Report>)
    ensures |reports| == Count(reports, None, {Pending}) + Count(reports, None, {Approved})
      + Count(reports, None, {InProgress}) + Count(reports, None, {Completed}) + Count(reports, None, {Rejected})
  {
    StatusPartition(reports, None);
  }

  /** One row of the `$group` by status; the schema keeps `_id` one of the
      five statuses. */
  datatype StatusGroup = StatusGroup(id: Status, count: nat)

  /** What the grouping stage returns, in any order: one row per status that
      occurs, with its count. */
  predicate GroupsStatuses(reports: seq<Report>, groups: seq<StatusGroup>)
  {
    && (forall i :: 0 <= i < |groups| ==> groups[i].count == Count(reports, None, {groups[i].id}) > 0)
    && (forall i, j :: 0 <= i < j < |groups| ==> groups[i].id != groups[j].id)
    && (forall s :: Count(reports, None, {s}) > 0 ==> exists i :: 0 <= i < |groups| && groups[i].id == s)
  }

  const ZeroCounts: map<Status, nat> := map[Pending := 0, Approved := 0, InProgress := 0, Completed := 0, Rejected := 0]

  /** `statusMap[item._id] = item.count` applied to each row in turn. */
  function Applied(base: map<Status, nat>, groups: seq<StatusGroup>): (m: map<Status, nat>)
    ensures m.Keys == base.Keys + set i | 0 <= i < |groups| :: groups[i].id
  {
    if groups == [] then base
    else
      var init := groups[..|groups| - 1];
      var last := groups[|groups| - 1];
      assert (set i | 0 <= i < |groups| :: groups[i].id) == (set i | 0 <= i < |init| :: init[i].id) + {last.id} by {
        assert forall i :: 0 <= i < |init| ==> init[i] == groups[i];
      }
      Applied(base, init)[last.id := last.count]
  }

  /** With distinct row ids, a key holds its row's count, or the base value. */
  lemma {:induction false} AppliedLookup(base: map<Status, nat>, groups: seq<StatusGroup>, k: nat)
    requires k < |groups|
    requires forall i, j :: 0 <= i < j < |groups| ==> groups[i].id != groups[j].id
    ensures groups[k].id in Applied(base, groups) && Applied(base, groups)[groups[k].id] == groups[k].count
  {
    if k < |groups| - 1 {
      AppliedLookup(base, groups[..|groups| - 1], k);
    }
  }

  lemma {:induction false} AppliedUntouched(base: map<Status, nat>, groups: seq<StatusGroup>, key: Status)
    requires key in base
    requires forall i :: 0 <= i < |groups| ==> groups[i].id != key
    ensures Applied(base, groups)[key] == base[key]
  {
    if groups != [] {
      AppliedUntouched(base, groups[..|groups| - 1], key);
    }
  }

  /** The handler's loop filling statusMap. */
  method StatusMap(groups: seq<StatusGroup>) returns (statusMap: map<Status, nat>)
    ensures statusMap == Applied(ZeroCounts, groups)
  {
    statusMap := ZeroCounts;
    for i := 0 to |groups|
      invariant statusMap == Applied(ZeroCounts, groups[..i])
    {
      assert groups[..i + 1][..i] == groups[..i];
      statusMap := statusMap[groups[i].id := groups[i].count];
    }
    assert groups[..|groups|] == groups;
  }

  /** statusCounts has exactly the five keys... */
  lemma StatusMapKeys(reports: seq<Report>, groups: seq<StatusGroup>)
    ensures Applied(ZeroCounts, groups).Keys == ZeroCounts.Keys
  {
    forall i | 0 <= i < |groups| ensures groups[i].id in ZeroCounts {
      match groups[i].id
      case Pending =>
      case Approved =>
      case InProgress =>
      case Completed =>
      case Rejected =>
    }
  }

  /** ...and each holds the number of reports in that status, zero when
      there are none. */
  lemma StatusMapEntry(reports: seq<Report>, groups: seq<StatusGroup>, s: Status)
    requires GroupsStatuses(reports, groups)
    ensures s in Applied(ZeroCounts, groups)
    ensures Applied(ZeroCounts, groups)[s] == Count(reports, None, {s})
  {
    assert s in ZeroCounts;
    if Count(reports, None, {s}) > 0 {
      var i :| 0 <= i < |groups| && groups[i].id == s;
      AppliedLookup(ZeroCounts, groups, i);
    } else {
      AppliedUntouched(ZeroCounts, groups, s);
    }
  }

  /** `rejected / (completed + rejected) * 100`, or 0 with nothing finished. */
  function RejectionRate(completed: nat, rejected: nat): (rate: real)
    ensures 0.0 <= rate <= 100.0
    ensures rate == 0.0 <==> rejected == 0
    ensures rate == 100.0 <==> rejected > 0 && completed == 0
    ensures completed + rejected > 0 ==> rate * (completed + rejected) as real == 100.0 * rejected as real
  {
    if completed + rejected > 0 then
      var total := (completed + rejected) as real;
      var rate := rejected as real / total * 100.0;
      assert rate * total == 100.0 * rejected as real;
      rate
    else 0.0
  }

  datatype WorkerStats = WorkerStats(workerId: Id, workerName: string, completedCount: nat, rejectedCount: nat,
                                     inprogressCount: nat, rejectionRate: real)

  function Performance(reports: seq<Report>, workerId: Id, name: string): (w: WorkerStats)
    ensures w.workerId == workerId && w.workerName == name
    ensures w.completedCount == Count(reports, Some(workerId), {Completed})
    ensures w.rejectedCount == Count(reports, Some(workerId), {Rejected})
    ensures w.inprogressCount == Count(reports, Some(workerId), {InProgress})
    ensures w.rejectionRate == RejectionRate(w.completedCount, w.rejectedCount)
  {
    var completed := Count(reports, Some(workerId), {Completed});
    var rejected := Count(reports, Some(workerId), {Rejected});
    WorkerStats(workerId, name, completed, rejected, Count(reports, Some(workerId), {InProgress}),
                RejectionRate(completed, rejected))
  }

  /** workerPerformance over the worker accounts `workers` the user query
      returned, one entry each, in that order. */
  function WorkerPerformance(reports: seq<Report>, accounts: map<Id, Account>, workers: seq<Id>): (r: seq<WorkerStats>)
    requires forall i :: 0 <= i < |workers| ==> workers[i] in accounts
    ensures |r| == |workers|
    ensures forall i :: 0 <= i < |workers| ==> r[i] == Performance(reports, workers[i], accounts[workers[i]].name)
  {
    seq(|workers|, i requires 0 <= i < |workers| => Performance(reports, workers[i], accounts[workers[i]].name))
  }

  /** The accounts the `role: 'worker'` query returns, each once. */
  predicate ListsWorkers(accounts: map<Id, Account>, workers: seq<Id>)
  {
    && (forall i :: 0 <= i < |workers| ==> workers[i] in accounts && accounts[workers[i]].role == Worker)
    && (forall id :: id in accounts && accounts[id].role == Worker ==> id in workers)
    && (forall i, j :: 0 <= i < j < |workers| ==> workers[i] != workers[j])
  }

  /** One entry per worker account, and no other. */
  lemma OneEntryPerWorker(reports: seq<Report>, accounts: map<Id, Account>, workers: seq<Id>, id: Id)
    requires ListsWorkers(accounts, workers)
    ensures (exists i :: 0 <= i < |workers| && WorkerPerformance(reports, accounts, workers)[i].workerId == id)
      <==> id in accounts && accounts[id].role == Worker
  {
    var r := WorkerPerformance(reports, accounts, workers);
    if id in accounts && accounts[id].role == Worker {
      var i :| 0 <= i < |workers| && workers[i] == id;
      assert r[i].workerId == id;
    }
  }

  /** A row of locationStats. */
  datatype LocationGroup = LocationGroup(address: string, count: nat, priority: seq<Priority>)

  function GroupCount(g: LocationGroup): int
  {
    g.count
  }

  /** The priorities of the reports at `address`, in collection order. */
  function PrioritiesAt(reports: seq<Report>, address: string): (ps: seq<Priority>)
    ensures |ps| <= |reports|
  {
    if reports == [] then []
    else
      var last := reports[|reports| - 1];
      PrioritiesAt(reports[..|reports| - 1], address) + (if last.location.address == address then [last.priority] else [])
  }

  predicate IsAddressGroup(reports: seq<Report>, g: LocationGroup)
  {
    g.count == |g.priority| > 0 && g.priority == PrioritiesAt(reports, g.address)
  }

  predicate Addresses(groups: seq<LocationGroup>, address: string)
  {
    exists i :: 0 <= i < |groups| && groups[i].address == address
  }

  /** A grouping: one row per occurring address, each counting and listing
      the priorities of that address's reports. */
  predicate GroupsAddresses(reports: seq<Report>, groups: seq<LocationGroup>)
  {
    && (forall i :: 0 <= i < |groups| ==> IsAddressGroup(reports, groups[i]))
    && (forall i, j :: 0 <= i < j < |groups| ==> groups[i].address != groups[j].address)
    && (forall k :: 0 <= k < |reports| ==> Addresses(groups, reports[k].location.address))
  }

  /** The index of the group for `address`, or -1. */
  function FindGroup(groups: seq<LocationGroup>, address: string): (i: int)
    ensures -1 <= i < |groups|
    ensures i >= 0 ==> groups[i].address == address
    ensures i < 0 <==> !Addresses(groups, address)
  {
    if groups == [] then -1
    else if groups[|groups| - 1].address == address then |groups| - 1
    else FindGroup(groups[..|groups| - 1], address)
  }

  lemma PrioritiesSnoc(reports: seq<Report>, r: Report, address: string)
    ensures PrioritiesAt(reports + [r], address)
      == PrioritiesAt(reports, address) + (if r.location.address == address then [r.priority] else [])
  {
    assert (reports + [r])[..|reports|] == reports;
  }

  /** One more report joins its address's group, or opens a new one. */
  function AddToGroups(groups: seq<LocationGroup>, r: Report): (result: seq<LocationGroup>)
    ensures |groups| <= |result| <= |groups| + 1
    ensures forall i :: 0 <= i < |groups| ==> result[i].address == groups[i].address
    ensures Addresses(result, r.location.address)
  {
    var a := r.location.address;
    var k := FindGroup(groups, a);
    if k >= 0 then groups[k := LocationGroup(a, groups[k].count + 1, groups[k].priority + [r.priority])]
    else
      var result := groups + [LocationGroup(a, 1, [r.priority])];
      assert result[|groups|].address == a;
      result
  }

  lemma AddToGroupsCounts(reports: seq<Report>, groups: seq<LocationGroup>, r: Report, i: nat)
    requires GroupsAddresses(reports, groups) && i < |AddToGroups(groups, r)|
    ensures IsAddressGroup(reports + [r], AddToGroups(groups, r)[i])
  {
    var result := AddToGroups(groups, r);
    var a := r.location.address;
    PrioritiesSnoc(reports, r, result[i].address);
    var k := FindGroup(groups, a);
    if i < |groups| && i != k {
      assert result[i] == groups[i];
      assert IsAddressGroup(reports, groups[i]);
    } else if i == k {
      assert IsAddressGroup(reports, groups[k]);
    } else {
      if |PrioritiesAt(reports, a)| > 0 {
        var j := PriorityWitness(reports, a);
      }
    }
  }

  /** An address with a priority listed has a report. */
  lemma {:induction false} PriorityWitness(reports: seq<Report>, address: string) returns (k: nat)
    requires 0 < |PrioritiesAt(reports, address)|
    ensures k < |reports| && reports[k].location.address == address
  {
    var init := reports[..|reports| - 1];
    if reports[|reports| - 1].location.address == address {
      k := |reports| - 1;
    } else {
      k := PriorityWitness(init, address);
    }
  }

  lemma AddToGroupsGroups(reports: seq<Report>, groups: seq<LocationGroup>, r: Report)
    requires GroupsAddresses(reports, groups)
    ensures GroupsAddresses(reports + [r], AddToGroups(groups, r))
  {
    var result := AddToGroups(groups, r);
    forall i | 0 <= i < |result| ensures IsAddressGroup(reports + [r], result[i]) {
      AddToGroupsCounts(reports, groups, r, i);
    }
    forall j | 0 <= j < |reports + [r]| ensures Addresses(result, (reports + [r])[j].location.address) {
      if j < |reports| {
        var i :| 0 <= i < |groups| && groups[i].address == reports[j].location.address;
        assert result[i].address == groups[i].address;
      }
    }
  }

  /** The `$group` by `location.address`, built report by report. */
  function GroupByAddress(reports: seq<Report>): (groups: seq<LocationGroup>)
    ensures GroupsAddresses(reports, groups)
  {
    if reports == [] then []
    else
      var init := reports[..|reports| - 1];
      assert reports == init + [reports[|reports| - 1]];
      AddToGroupsGroups(init, GroupByAddress(init), reports[|reports| - 1]);
      AddToGroups(GroupByAddress(init), reports[|reports| - 1])
  }

  const LocationLimit := 20

  /** locationStats: the groups, largest count first, at most twenty. The
      database's order among equal counts is not specified. */
  function LocationStats(reports: seq<Report>): (r: seq<LocationGroup>)
    ensures |r| <= LocationLimit
    ensures Ordering.SortedDesc(r, GroupCount)
    ensures forall i :: 0 <= i < |r| ==> IsAddressGroup(reports, r[i])
    ensures forall i, j :: 0 <= i < j < |r| ==> r[i].address != r[j].address
  {
    var sorted := Ordering.SortDesc(GroupByAddress(reports), GroupCount);
    SortKeepsGrouping(reports, GroupByAddress(reports), sorted);
    Top(sorted, LocationLimit)
  }

  lemma SortKeepsGrouping(reports: seq<Report>, groups: seq<LocationGroup>, sorted: seq<LocationGroup>)
    requires GroupsAddresses(reports, groups)
    requires multiset(sorted) == multiset(groups)
    ensures forall i :: 0 <= i < |sorted| ==> IsAddressGroup(reports, sorted[i])
    ensures forall i, j :: 0 <= i < j < |sorted| ==> sorted[i].address != sorted[j].address
  {
    forall i | 0 <= i < |sorted| ensures IsAddressGroup(reports, sorted[i]) {
      assert sorted[i] in multiset(groups);
    }
    forall i, j | 0 <= i < j < |sorted| ensures sorted[i].address != sorted[j].address {
      if sorted[i].address == sorted[j].address {
        assert sorted[i] in multiset(groups) && sorted[j] in multiset(groups);
        var x :| 0 <= x < |groups| && groups[x] == sorted[i];
        var y :| 0 <= y < |groups| && groups[y] == sorted[j];
        assert x == y;
        assert multiset(sorted)[sorted[i]] >= 2 by {
          assert sorted == sorted[..j] + [sorted[j]] + sorted[j + 1..];
          assert sorted[i] in sorted[..j];
        }
        DistinctOnce(groups, x);
      }
    }
  }

  lemma {:induction false} DistinctOnce(groups: seq<LocationGroup>, x: nat)
    requires x < |groups|
    requires forall i, j :: 0 <= i < j < |groups| ==> groups[i].address != groups[j].address
    ensures multiset(groups)[groups[x]] == 1
  {
    var init := groups[..|groups| - 1];
    assert groups == init + [groups[|groups| - 1]];
    if x < |groups| - 1 {
      DistinctOnce(init, x);
    } else {
      assert groups[x] !in init;
    }
  }

  /** `$limit`: the first `n` rows. */
  function Top(s: seq<LocationGroup>, n: nat): (r: seq<LocationGroup>)
    ensures |r| <= n && r <= s
    ensures |s| <= n ==> r == s
  {
    if |s| <= n then s else s[..n]
  }

  /** What `$limit` leaves out of a sorted sequence ranks no higher than
      anything it keeps. */
  lemma TopOfSorted(s: seq<LocationGroup>, n: nat, g: LocationGroup)
    requires Ordering.SortedDesc(s, GroupCount)
    requires g in s && g !in Top(s, n)
    ensures |Top(s, n)| == n
    ensures forall i :: 0 <= i < n ==> Top(s, n)[i].count >= g.count
  {
    var m :| 0 <= m < |s| && s[m] == g;
    assert m >= n;
    assert forall i :: 0 <= i < n ==> Top(s, n)[i] == s[i];
    assert forall i :: 0 <= i < n ==> GroupCount(s[i]) >= GroupCount(s[m]);
  }

  /** A group left out of locationStats has no more reports than any group
      shown, and then twenty are shown. */
  lemma LocationStatsAreTheTop(reports: seq<Report>, g: LocationGroup)
    requires g in GroupByAddress(reports) && g !in LocationStats(reports)
    ensures |LocationStats(reports)| == LocationLimit
    ensures forall i :: 0 <= i < LocationLimit ==> LocationStats(reports)[i].count >= g.count
  {
    var sorted := Ordering.SortDesc(GroupByAddress(reports), GroupCount);
    assert g in multiset(sorted) by { assert g in multiset(GroupByAddress(reports)); }
    TopOfSorted(sorted, LocationLimit, g);
  }

  /** getWorkerAnalytics for the calling worker. */
  datatype WorkerView = WorkerView(completedCount: nat, pendingAssignedCount: nat, inprogressCount: nat,
                                   rejectedCount: nat, rejectionRate: real)

  function WorkerAnalytics(reports: seq<Report>, workerId: Id): (v: WorkerView)
    ensures v.completedCount == Count(reports, Some(workerId), {Completed})
    ensures v.inprogressCount == Count(reports, Some(workerId), {InProgress})
    ensures v.rejectedCount == Count(reports, Some(workerId), {Rejected})
    ensures v.pendingAssignedCount == Count(reports, Some(workerId), {Pending}) + Count(reports, Some(workerId), {Approved})
    ensures v.completedCount + v.pendingAssignedCount + v.inprogressCount + v.rejectedCount
      == CountAny(reports, Some(workerId))
    ensures v.rejectionRate == Performance(reports, workerId, "").rejectionRate
  {
    var completed := Count(reports, Some(workerId), {Completed});
    var pending := Count(reports, Some(workerId), {Pending, Approved});
    var inprogress := Count(reports, Some(workerId), {InProgress});
    var rejected := Count(reports, Some(workerId), {Rejected});
    StatusPartition(reports, Some(workerId));
    WorkerView(completed, pending, inprogress, rejected, RejectionRate(completed, rejected))
  }
}
