/** The HTTP surface of the core: which handler a request reaches (the route
    tables under backend/routes, mounted in the order of backend/server.js),
    and which guard and upload step stand in front of each handler. */
module Routes {
  import opened Common

  datatype Method = Get | Post | Patch | Delete

  /** Every handler the routes of the core lead to. */
  datatype Endpoint =
    | CreateReport | ListReports | MyReports | ReportById
    | UpdateStatus | AssignWorker | CompleteReport | UpvoteReport
    | ListWorkers | AssignedQueue | InProgressQueue | CompletedQueue | AcceptReport | RejectReport
    | ViewNoticePdf | DownloadNoticePdf | CreateNotice | PublicNotices | WorkerNotices | AllNotices | DeleteNotice
    | ListComments | CreateComment
    | AuthorityAnalytics | WorkerAnalytics

  /** The middleware in front of a handler: none, the authentication check
      alone, or authentication followed by a role check. */
  datatype Guard = Open | Authenticated | RoleOnly(role: Role)

  /** The guard column of the route tables: six handlers are open to
      anyone, and no role check names the citizen role. */
  function GuardOf(e: Endpoint): (g: Guard)
    ensures g == Open <==> e in {ListReports, ReportById, ViewNoticePdf, DownloadNoticePdf, PublicNotices, ListComments}
    ensures g.RoleOnly? ==> g.role != User
  {
    match e
    case CreateReport => Authenticated
    case ListReports => Open
    case MyReports => Authenticated
    case ReportById => Open
    case UpdateStatus => RoleOnly(Authority)
    case AssignWorker => RoleOnly(Authority)
    case CompleteReport => RoleOnly(Worker)
    case UpvoteReport => Authenticated
    case ListWorkers => RoleOnly(Authority)
    case AssignedQueue => RoleOnly(Worker)
    case InProgressQueue => RoleOnly(Worker)
    case CompletedQueue => RoleOnly(Worker)
    case AcceptReport => RoleOnly(Worker)
    case RejectReport => RoleOnly(Worker)
    case ViewNoticePdf => Open
    case DownloadNoticePdf => Open
    case CreateNotice => RoleOnly(Authority)
    case PublicNotices => Open
    case WorkerNotices => RoleOnly(Worker)
    case AllNotices => RoleOnly(Authority)
    case DeleteNotice => RoleOnly(Authority)
    case ListComments => Open
    case CreateComment => Authenticated
    case AuthorityAnalytics => RoleOnly(Authority)
    case WorkerAnalytics => RoleOnly(Worker)
  }

  /** Whether a guard lets a request through; None is an anonymous request.
      Only an open guard admits an anonymous request, and a signed-in caller
      is refused only by a role check for another role. */
  function Admits(g: Guard, caller: Option<Caller>): (ok: bool)
    ensures caller.None? ==> (ok <==> g == Open)
    ensures caller.Some? ==> (ok <==> !(g.RoleOnly? && g.role != caller.value.role))
  {
    match g
    case Open => true
    case Authenticated => caller.Some?
    case RoleOnly(role) => caller.Some? && caller.value.role == role
  }

  /** The upload step between the guard and the handler, with its form field. */
  datatype UploadStep = NoUpload | GenericField(field: string) | NoticeField(field: string)

  /** Exactly three handlers take a file: the report image and the
      completion photo through the generic step, the notice PDF through the
      notice step. */
  function UploadStepOf(e: Endpoint): (u: UploadStep)
    ensures u.GenericField? <==> e == CreateReport || e == CompleteReport
    ensures u.NoticeField? <==> e == CreateNotice
  {
    match e
    case CreateReport => GenericField("image")
    case CompleteReport => GenericField("completionImage")
    case CreateNotice => NoticeField("pdfFile")
    case _ => NoUpload
  }

  /** One segment of a route path: a literal, a parameter (`:id`), or a
      parameter followed by the literal suffix `.pdf` (`:id.pdf`). */
  datatype Segment = Lit(text: string) | Param | PdfParam

  predicate SegmentMatches(s: Segment, x: string)
  {
    match s
    case Lit(t) => x == t
    case Param => x != ""
    case PdfParam => |x| > 4 && x[|x| - 4..] == ".pdf"
  }

  datatype Route = Route(verb: Method, pattern: seq<Segment>, endpoint: Endpoint)

  /** A request path, split at its slashes, matches a route's pattern. */
  predicate Matches(r: Route, verb: Method, path: seq<string>)
  {
    && r.verb == verb
    && |r.pattern| == |path|
    && forall i :: 0 <= i < |path| ==> SegmentMatches(r.pattern[i], path[i])
  }

  /** A router mounted under a path prefix. */
  function Mount(prefix: seq<Segment>, routes: seq<Route>): (mounted: seq<Route>)
    ensures |mounted| == |routes|
    ensures forall i :: 0 <= i < |routes| ==>
      mounted[i] == Route(routes[i].verb, prefix + routes[i].pattern, routes[i].endpoint)
  {
    seq(|routes|, i requires 0 <= i < |routes| => Route(routes[i].verb, prefix + routes[i].pattern, routes[i].endpoint))
  }

  const ReportRoutes: seq<Route> := [
    Route(Post, [], CreateReport),
    Route(Get, [], ListReports),
    Route(Get, [Lit("my")], MyReports),
    Route(Get, [Param], ReportById),
    Route(Patch, [Param, Lit("status")], UpdateStatus),
    Route(Patch, [Param, Lit("assign")], AssignWorker),
    Route(Patch, [Param, Lit("complete")], CompleteReport),
    Route(Post, [Param, Lit("upvote")], UpvoteReport)
  ]

  const WorkerRoutes: seq<Route> := [
    Route(Get, [Lit("workers")], ListWorkers),
    Route(Get, [Lit("reports"), Lit("assigned")], AssignedQueue),
    Route(Get, [Lit("reports"), Lit("inprogress")], InProgressQueue),
    Route(Get, [Lit("reports"), Lit("completed")], CompletedQueue),
    Route(Patch, [Lit("reports"), Param, Lit("accept")], AcceptReport),
    Route(Patch, [Lit("reports"), Param, Lit("reject")], RejectReport)
  ]

  const NoticeRoutes: seq<Route> := [
    Route(Get, [PdfParam], ViewNoticePdf),
    Route(Get, [Param, Lit("download")], DownloadNoticePdf),
    Route(Post, [], CreateNotice),
    Route(Get, [Lit("public")], PublicNotices),
    Route(Get, [Lit("worker")], WorkerNotices),
    Route(Get, [Lit("all")], AllNotices),
    Route(Delete, [Param], DeleteNotice)
  ]

  const CommentRoutes: seq<Route> := [
    Route(Get, [], ListComments),
    Route(Post, [], CreateComment)
  ]

  const AnalyticsRoutes: seq<Route> := [
    Route(Get, [Lit("authority")], AuthorityAnalytics),
    Route(Get, [Lit("worker")], WorkerAnalytics)
  ]

  /** The mount prefixes of the routers. */
  const NoticesPrefix: seq<Segment> := [Lit("notices")]
  const ReportsPrefix: seq<Segment> := [Lit("api"), Lit("reports")]
  const CommentsPrefix: seq<Segment> := [Lit("api"), Lit("reports"), Param, Lit("comments")]
  const ApiNoticesPrefix: seq<Segment> := [Lit("api"), Lit("notices")]
  const WorkerPrefix: seq<Segment> := [Lit("api"), Lit("worker")]
  const AnalyticsPrefix: seq<Segment> := [Lit("api"), Lit("analytics")]

  /** The handler a request reaches in the application: the routers are
      tried in the order the application mounts them, each under its prefix.
      The notice router is mounted twice, under /notices and /api/notices. */
  function ResolveRequest(verb: Method, path: seq<string>): (r: Option<Endpoint>)
    ensures r.Some? ==> |path| >= 1 && (path[0] == "notices" || path[0] == "api")
  {
    var r0 := Resolve(Mount(NoticesPrefix, NoticeRoutes), verb, path);
    var r1 := Resolve(Mount(ReportsPrefix, ReportRoutes), verb, path);
    var r2 := Resolve(Mount(CommentsPrefix, CommentRoutes), verb, path);
    var r3 := Resolve(Mount(ApiNoticesPrefix, NoticeRoutes), verb, path);
    var r4 := Resolve(Mount(WorkerPrefix, WorkerRoutes), verb, path);
    var r5 := Resolve(Mount(AnalyticsPrefix, AnalyticsRoutes), verb, path);
    assert path == [] || (path[0] != "notices" && path[0] != "api") ==>
      r0.None? && r1.None? && r2.None? && r3.None? && r4.None? && r5.None? by {
      if path == [] || (path[0] != "notices" && path[0] != "api") {
        OutsideMount(NoticesPrefix, NoticeRoutes, verb, path);
        OutsideMount(ReportsPrefix, ReportRoutes, verb, path);
        OutsideMount(CommentsPrefix, CommentRoutes, verb, path);
        OutsideMount(ApiNoticesPrefix, NoticeRoutes, verb, path);
        OutsideMount(WorkerPrefix, WorkerRoutes, verb, path);
        OutsideMount(AnalyticsPrefix, AnalyticsRoutes, verb, path);
      }
    }
    if r0.Some? then r0 else if r1.Some? then r1 else if r2.Some? then r2
    else if r3.Some? then r3 else if r4.Some? then r4 else r5
  }

  /** A mounted router claims no empty path and no path whose first segment
      differs from the prefix's first literal. */
  lemma OutsideMount(prefix: seq<Segment>, routes: seq<Route>, verb: Method, path: seq<string>)
    requires |prefix| >= 1 && prefix[0].Lit?
    requires path == [] || path[0] != prefix[0].text
    ensures Resolve(Mount(prefix, routes), verb, path) == None
  {
    if path == [] {
      var mounted := Mount(prefix, routes);
      forall i | 0 <= i < |mounted|
        ensures !Matches(mounted[i], verb, path)
      {
        assert |mounted[i].pattern| >= |prefix|;
      }
    } else {
      MountMismatch(prefix, routes, verb, path, 0);
    }
  }

  /** Route i is the first route of the table to match the request. */
  predicate FirstMatch(routes: seq<Route>, i: int, verb: Method, path: seq<string>)
  {
    && 0 <= i < |routes|
    && Matches(routes[i], verb, path)
    && forall j :: 0 <= j < i ==> !Matches(routes[j], verb, path)
  }

  /** The handler a request reaches: the first route, in registration order,
      whose verb and pattern match; None when no route matches. */
  function Resolve(routes: seq<Route>, verb: Method, path: seq<string>): (r: Option<Endpoint>)
    ensures r.None? <==> forall i :: 0 <= i < |routes| ==> !Matches(routes[i], verb, path)
    ensures r.Some? ==> exists i :: FirstMatch(routes, i, verb, path) && routes[i].endpoint == r.value
  {
    if routes == [] then None
    else if Matches(routes[0], verb, path) then
      assert FirstMatch(routes, 0, verb, path);
      Some(routes[0].endpoint)
    else
      var r := Resolve(routes[1..], verb, path);
      if r.Some? then
        var i :| FirstMatch(routes[1..], i, verb, path) && routes[1..][i].endpoint == r.value;
        assert FirstMatch(routes, i + 1, verb, path);
        r
      else
        assert forall i :: 1 <= i < |routes| ==> routes[i] == routes[1..][i - 1];
        r
  }

  /** The first matching route decides the handler. */
  lemma ResolveFirstMatch(routes: seq<Route>, i: int, verb: Method, path: seq<string>)
    requires FirstMatch(routes, i, verb, path)
    ensures Resolve(routes, verb, path) == Some(routes[i].endpoint)
  {
    var r := Resolve(routes, verb, path);
    var k :| FirstMatch(routes, k, verb, path) && routes[k].endpoint == r.value;
    assert k == i;
  }

  /** A router whose prefix does not match the request path is skipped. */
  lemma MountMismatch(prefix: seq<Segment>, routes: seq<Route>, verb: Method, path: seq<string>, k: int)
    requires 0 <= k < |prefix| && k < |path| && !SegmentMatches(prefix[k], path[k])
    ensures Resolve(Mount(prefix, routes), verb, path) == None
  {
    var mounted := Mount(prefix, routes);
    forall i | 0 <= i < |mounted|
      ensures !Matches(mounted[i], verb, path)
    {
      assert mounted[i].pattern[k] == prefix[k];
    }
  }

  /** Within the report router, `/my` is registered before `/:id`. */
  lemma ReportRouterMy()
    ensures Resolve(Mount(ReportsPrefix, ReportRoutes), Get, ["api", "reports", "my"])
      == Some(MyReports)
  {
    var path := ["api", "reports", "my"];
    var reports := Mount(ReportsPrefix, ReportRoutes);
    assert !Matches(reports[0], Get, path);
    assert !Matches(reports[1], Get, path);
    assert Matches(reports[2], Get, path);
    ResolveFirstMatch(reports, 2, Get, path);
  }

  /** `GET /api/reports/my` reaches the caller's own reports, never the lookup
      by id. */
  lemma MyIsNeverAnId()
    ensures ResolveRequest(Get, ["api", "reports", "my"]) == Some(MyReports)
  {
    var path := ["api", "reports", "my"];
    MountMismatch(NoticesPrefix, NoticeRoutes, Get, path, 0);
    ReportRouterMy();
  }

  /** Within the notice router, `/:id.pdf` is the first route: a GET for any
      `<id>.pdf` reaches the PDF view. */
  lemma NoticeRouterView(prefix: seq<Segment>, head: seq<string>, id: string)
    requires id != "" && |head| == |prefix|
    requires forall k :: 0 <= k < |prefix| ==> SegmentMatches(prefix[k], head[k])
    ensures Resolve(Mount(prefix, NoticeRoutes), Get, head + [id + ".pdf"]) == Some(ViewNoticePdf)
  {
    var table := NoticeRoutes;
    assert table[0] == Route(Get, [PdfParam], ViewNoticePdf);
    ViewFirst(prefix, head, id, table);
  }

  /** Under a matching prefix, `<id>.pdf` matches the PDF view route. */
  lemma ViewRouteMatches(prefix: seq<Segment>, head: seq<string>, id: string)
    requires id != "" && |head| == |prefix|
    requires forall k :: 0 <= k < |prefix| ==> SegmentMatches(prefix[k], head[k])
    ensures Matches(Route(Get, prefix + [PdfParam], ViewNoticePdf), Get, head + [id + ".pdf"])
  {
    var path := head + [id + ".pdf"];
    var pattern := prefix + [PdfParam];
    assert (id + ".pdf")[|id + ".pdf"| - 4..] == ".pdf";
    forall i | 0 <= i < |path|
      ensures SegmentMatches(pattern[i], path[i])
    {
      if i < |prefix| {
        assert pattern[i] == prefix[i] && path[i] == head[i];
      }
    }
  }

  /** The same for any table whose first route is the PDF view. */
  lemma ViewFirst(prefix: seq<Segment>, head: seq<string>, id: string, table: seq<Route>)
    requires id != "" && |head| == |prefix|
    requires forall k :: 0 <= k < |prefix| ==> SegmentMatches(prefix[k], head[k])
    requires |table| >= 1 && table[0] == Route(Get, [PdfParam], ViewNoticePdf)
    ensures Resolve(Mount(prefix, table), Get, head + [id + ".pdf"]) == Some(ViewNoticePdf)
  {
    var routes := Mount(prefix, table);
    ViewRouteMatches(prefix, head, id);
    ResolveFirstMatch(routes, 0, Get, head + [id + ".pdf"]);
  }

  /** Under a matching prefix, `<id>/download` matches the download route
      and, being one segment longer, not the PDF view route. */
  lemma DownloadRouteMatches(prefix: seq<Segment>, head: seq<string>, id: string)
    requires id != "" && |head| == |prefix|
    requires forall k :: 0 <= k < |prefix| ==> SegmentMatches(prefix[k], head[k])
    ensures !Matches(Route(Get, prefix + [PdfParam], ViewNoticePdf), Get, head + [id, "download"])
    ensures Matches(Route(Get, prefix + [Param, Lit("download")], DownloadNoticePdf), Get, head + [id, "download"])
  {
    var path := head + [id, "download"];
    var pattern := prefix + [Param, Lit("download")];
    forall i | 0 <= i < |path|
      ensures SegmentMatches(pattern[i], path[i])
    {
      if i < |prefix| {
        assert pattern[i] == prefix[i] && path[i] == head[i];
      }
    }
  }

  /** Within the notice router, a GET for `<id>/download` reaches the download. */
  lemma NoticeRouterDownload(prefix: seq<Segment>, head: seq<string>, id: string)
    requires id != "" && |head| == |prefix|
    requires forall k :: 0 <= k < |prefix| ==> SegmentMatches(prefix[k], head[k])
    ensures Resolve(Mount(prefix, NoticeRoutes), Get, head + [id, "download"]) == Some(DownloadNoticePdf)
  {
    var table := NoticeRoutes;
    assert table[0] == Route(Get, [PdfParam], ViewNoticePdf);
    assert table[1] == Route(Get, [Param, Lit("download")], DownloadNoticePdf);
    DownloadAfterView(prefix, head, id, table);
  }

  /** The same for any table whose first two routes are the PDF view and the
      download. */
  lemma DownloadAfterView(prefix: seq<Segment>, head: seq<string>, id: string, table: seq<Route>)
    requires id != "" && |head| == |prefix|
    requires forall k :: 0 <= k < |prefix| ==> SegmentMatches(prefix[k], head[k])
    requires |table| >= 2
    requires table[0] == Route(Get, [PdfParam], ViewNoticePdf)
    requires table[1] == Route(Get, [Param, Lit("download")], DownloadNoticePdf)
    ensures Resolve(Mount(prefix, table), Get, head + [id, "download"]) == Some(DownloadNoticePdf)
  {
    var routes := Mount(prefix, table);
    DownloadRouteMatches(prefix, head, id);
    ResolveFirstMatch(routes, 1, Get, head + [id, "download"]);
  }

  /** The PDF view of any notice is reachable under the /notices mount. */
  lemma PdfViewReachable(id: string)
    requires id != ""
    ensures ResolveRequest(Get, ["notices", id + ".pdf"]) == Some(ViewNoticePdf)
  {
    NoticeRouterView(NoticesPrefix, ["notices"], id);
    assert ["notices"] + [id + ".pdf"] == ["notices", id + ".pdf"];
  }

  /** The PDF download of any notice is reachable under the /notices mount. */
  lemma PdfDownloadReachable(id: string)
    requires id != ""
    ensures ResolveRequest(Get, ["notices", id, "download"]) == Some(DownloadNoticePdf)
  {
    NoticeRouterDownload(NoticesPrefix, ["notices"], id);
    assert ["notices"] + [id, "download"] == ["notices", id, "download"];
  }

  /** A path outside /notices is not claimed by the first notice mount. */
  lemma NoticeMountSkips(verb: Method, path: seq<string>)
    requires |path| >= 1 && path[0] != "notices"
    ensures Resolve(Mount(NoticesPrefix, NoticeRoutes), verb, path) == None
  {
    MountMismatch(NoticesPrefix, NoticeRoutes, verb, path, 0);
  }

  /** A path under /api whose second segment is not `reports` is claimed by
      neither the report router nor the comment router. */
  lemma ReportMountsSkip(verb: Method, path: seq<string>)
    requires |path| >= 2 && path[1] != "reports"
    ensures Resolve(Mount(ReportsPrefix, ReportRoutes), verb, path) == None
    ensures Resolve(Mount(CommentsPrefix, CommentRoutes), verb, path) == None
  {
    MountMismatch(ReportsPrefix, ReportRoutes, verb, path, 1);
    MountMismatch(CommentsPrefix, CommentRoutes, verb, path, 1);
  }

  /** The second notice mount serves the PDF view. */
  lemma ApiNoticeRouterView(id: string)
    requires id != ""
    ensures Resolve(Mount(ApiNoticesPrefix, NoticeRoutes), Get, ["api", "notices", id + ".pdf"])
      == Some(ViewNoticePdf)
  {
    var prefix := ApiNoticesPrefix;
    var head := ["api", "notices"];
    assert SegmentMatches(prefix[0], head[0]) && SegmentMatches(prefix[1], head[1]);
    NoticeRouterView(prefix, head, id);
    assert head + [id + ".pdf"] == ["api", "notices", id + ".pdf"];
  }

  /** The second notice mount serves the PDF download. */
  lemma ApiNoticeRouterDownload(id: string)
    requires id != ""
    ensures Resolve(Mount(ApiNoticesPrefix, NoticeRoutes), Get, ["api", "notices", id, "download"])
      == Some(DownloadNoticePdf)
  {
    var prefix := ApiNoticesPrefix;
    var head := ["api", "notices"];
    assert SegmentMatches(prefix[0], head[0]) && SegmentMatches(prefix[1], head[1]);
    NoticeRouterDownload(prefix, head, id);
    assert head + [id, "download"] == ["api", "notices", id, "download"];
  }

  /** The PDF view is also reachable under /api/notices: no report, comment
      or earlier notice route claims the path. */
  lemma ApiPdfViewReachable(id: string)
    requires id != ""
    ensures ResolveRequest(Get, ["api", "notices", id + ".pdf"]) == Some(ViewNoticePdf)
  {
    var view := ["api", "notices", id + ".pdf"];
    NoticeMountSkips(Get, view);
    ReportMountsSkip(Get, view);
    ApiNoticeRouterView(id);
  }

  /** The PDF download is also reachable under /api/notices. */
  lemma ApiPdfDownloadReachable(id: string)
    requires id != ""
    ensures ResolveRequest(Get, ["api", "notices", id, "download"]) == Some(DownloadNoticePdf)
  {
    var download := ["api", "notices", id, "download"];
    NoticeMountSkips(Get, download);
    ReportMountsSkip(Get, download);
    ApiNoticeRouterDownload(id);
  }

  /** Exactly six handlers are reachable without authentication: the report
      listing and lookup, the PDF view and download, the public notices and
      the comment listing. */
  lemma AnonymousAccess(e: Endpoint)
    ensures Admits(GuardOf(e), None) <==>
      e in {ListReports, ReportById, ViewNoticePdf, DownloadNoticePdf, PublicNotices, ListComments}
  {
  }

  /** The authority-only handlers: status update, assignment, the worker
      list, notice creation, the full notice list, notice deletion and the
      authority analytics. */
  lemma AuthorityOnly(e: Endpoint)
    ensures GuardOf(e) == RoleOnly(Authority) <==>
      e in {UpdateStatus, AssignWorker, ListWorkers, CreateNotice, AllNotices, DeleteNotice, AuthorityAnalytics}
  {
  }

  /** The worker-only handlers: completion, the three queues, accept, reject,
      the worker notices and the worker analytics. */
  lemma WorkerOnly(e: Endpoint)
    ensures GuardOf(e) == RoleOnly(Worker) <==>
      e in {CompleteReport, AssignedQueue, InProgressQueue, CompletedQueue, AcceptReport, RejectReport,
            WorkerNotices, WorkerAnalytics}
  {
  }

  /** No handler is reserved to citizens: a guard either admits every
      authenticated role or names the worker or authority role. */
  lemma NoCitizenOnlyRoute(e: Endpoint)
    ensures GuardOf(e) != RoleOnly(User)
  {
  }
}
