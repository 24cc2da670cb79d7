# SwacchSetu core, modelled in Dafny

SwacchSetu is a garbage-reporting web application. Citizens submit geotagged photo reports. Authority accounts triage them and assign them to worker accounts. Workers accept, reject or complete the reports with a proof photo. Everyone can comment, upvote and read notices. The backend is an Express application over Mongoose documents; the frontend is a React single-page application.

This project models the parts of that system that decide behaviour, and proves what they promise:

- **The report lifecycle** (`report_model.dfy`, `timeline_model.dfy`, `lifecycle.dfy`, `report_store.dfy`). The `Report` and `TimelineEntry` documents, with their enums, defaults and the `upvotesCount` getter. Every handler of `reportController.js` and `workerController.js` that changes a report is modelled: create, status update, assignment, completion, upvote, accept and reject by a worker. Each is a pure step function over the collection (a map from id to report) that fixes the exact order of checks and the exact timeline entries. `ReportStore.Store` is a class whose methods change the collection in place; each method is proved to leave exactly the state and answer of its step function. A collection invariant (`Lifecycle.StoreValid`: unique issue ids, well-formed documents, a status that agrees with the timeline's last status event, a completion photo on every completed report) is proved to be kept by every operation, and so is `Lifecycle.Evolves`: no report disappears and a timeline only grows at its end. For each handler, a lemma states exactly when it succeeds.
- **Queries** (`queries.dfy`, `text.dfy`). The `getReports` filter: the status parser, the issue-id matcher, the skip and page-count arithmetic (a page below 1, or a page or limit that is not a number, makes the pipeline fail with 500), and which reports the default first page holds (the newest twelve). Also the worker list and the three worker queues.
- **Comments** (`comment_model.dfy`, `comments.dfy`, `comment_tree.dfy`). Role tagging, the one-top-level-and-one-reply limit, and the listing. On the client side, `buildCommentTree` is modelled as a two-pass loop and proved to place every comment exactly once, keeping input order. The posting gates and the collapsed-list counts are modelled too.
- **Notices and uploads** (`notice_model.dfy`, `notices.dfy`, `uploads.dfy`, `routes.dfy`). Creation with its defaults and its choice of e-mail recipients, the three listings, the hard delete, and the 404 rules of the PDF view and download. The two multer configurations and the upload-error handler are modelled. The route tables of `server.js` and the report, worker, notice, comment and analytics routers are resolved first-match, with the role each handler requires.
- **Analytics** (`analytics.dfy`, `ordering.dfy`). The authority dashboard's status counts with zero defaults, per-worker performance, rejection rate, and top-twenty address groups. The worker dashboard's own counts.
- **Client rules** (`report_management.dfy`, `notice_pages.dfy`, `pdf_helper.dfy`):
  - the authority's three report tabs, which are proved never to show a report on two tabs, and to show it on its own tab when that tab's query matches at most one page;
  - the status-update payload and its enabling rule;
  - the pagination of the three notice pages;
  - the notice creation form;
  - the PDF helper's addresses, file name and buttons.

Conventions:
- Ids and strings are `seq<char>`. An absent or falsy request field is `""`, following JavaScript truthiness.
- The caller is a given `(id, role)`: token verification is not part of this model.
- Media uploads are a parameter holding the stored address, or nothing when the media store fails.
- Clocks are a `now` parameter.
- E-mail is modelled only as the set of addresses a notice would mail.
- The handlers have no central transition table, and the model follows what each handler checks. In particular:
  - no handler except `acceptReport` checks the current status, so `Lifecycle` has no transition table beyond what the code does;
  - an authority may set any schema status except `completed`, `pending` included;
  - the rejection reason check looks only at `reasonType`;
  - worker notices go to the `Worker` collection (see Findings).

## Model

| member | source | states |
|---|---|---|
| ReportModel.ParseStatus | backend/models/Report.js:50-54 | a status name is accepted exactly when it is one of the schema's five enum values, and then as the status bearing it |
| ReportModel.StatusNameRoundTrip | backend/models/Report.js:50-54 | every status name parses back to its own status, so the five names are distinct |
| ReportModel.StatusName | backend/models/Report.js:52 | every status is written as one of the schema's five enum values |
| ReportModel.ParsePriority | backend/models/Report.js:45-49 | a priority name is accepted exactly when it is one of the schema's enum values low, medium, high, and then as the priority bearing it |
| ReportModel.PriorityNameRoundTrip | backend/models/Report.js:45-49 | every priority name parses back to its own priority |
| ReportModel.PriorityName | backend/models/Report.js:47 | every priority is written as one of the schema's three enum values |
| ReportModel.UpvotesCount | backend/models/Report.js:76-78 | the `upvotesCount` getter is zero exactly when nobody has upvoted |
| ReportModel.VoteChangesCountByOne | backend/models/Report.js:76-78 | a vote from a new voter raises `upvotesCount` by one, and withdrawing a vote lowers it by one |
| ReportModel.LatestStatusAfterStatusEntry | backend/controllers/reportController.js:255-257 | appending an entry whose event sets a status makes that status the one the timeline ends on |
| ReportModel.LatestStatusAfterOtherEntry | backend/controllers/workerController.js:89-90 | appending an entry whose event sets no status (an assignment, an acceptance) leaves the status the timeline ends on unchanged |
| TimelineModel.ParseKind | backend/models/TimelineEntry.js:5-18 | an event name is accepted exactly when it is one of the schema's eight enum values, and then as the kind bearing it |
| TimelineModel.KindName | backend/models/TimelineEntry.js:7-16 | every event kind is written as one of the schema's eight enum values |
| NoticeModel.ParseAudience | backend/models/Notice.js:17-21 | an audience name is accepted exactly when it is one of the schema's enum values `public` and `worker`, and then as that audience |
| NoticeModel.AudienceName | backend/models/Notice.js:19 | every audience is written as one of the schema's two enum values |
| Lifecycle.OrNull | backend/controllers/reportController.js:55-56 | a coordinate is stored exactly when it is present and non-zero, and then unchanged; zero or absent becomes null |
| Lifecycle.Save | backend/models/Report.js:4-74 | a save stores the document exactly when it is well-formed and no other report has its issueId; otherwise a server error and the collection is unchanged |
| Lifecycle.ReplaceKeepsValid | backend/models/Report.js:6-10 | replacing a report of a valid collection by a valid version with the same issueId keeps the issueIds unique and the collection valid |
| Lifecycle.AppendKeepsValid | backend/models/TimelineEntry.js:3-34 | a report that keeps its submitted fields and gains well-formed entries stays valid when its status is the one its timeline ends on and a completion keeps its photo |
| Lifecycle.AuthorityKind | backend/controllers/reportController.js:246-247 | the event an authority's status update records sets exactly the requested status, and is named after it except for a rejection (`rejected_by_authority`) |
| Lifecycle.CreateReport | backend/controllers/reportController.js:23-75 | upload errors first, then a 500 for a location string that is not JSON, then 400 for a missing title, description or location, then 400 for a missing image; the report is stored exactly when the photo was stored, every required field is present and the issueId is free, and then it is exactly the new pending, low-priority report with the one `pending` entry by the caller and non-zero coordinates; the answer is then 201, or 500 when the caller's account is missing for the confirmation e-mail, the report staying stored; otherwise nothing changes; no report is lost or rewritten |
| Lifecycle.NewReport | backend/controllers/reportController.js:41-59 | the new report is pending, low priority, unassigned and without upvotes, by the caller at the current time, with the stored photo and the single `Report submitted` entry |
| Lifecycle.CreateReportKeepsValid | backend/controllers/reportController.js:42-62 | creating a report keeps the collection valid |
| Lifecycle.StatusEntry | backend/controllers/reportController.js:244-253 | the entry a status update appends sets the new status, says `Status updated to <status>` with ` - Reason: <reason>` exactly when there is a reason, carries the reason as meta exactly then, and is well-formed for a caller with an id |
| Lifecycle.RejectReason | backend/controllers/reportController.js:244 | the reason recorded is empty only when no reason type was given, or the type is `Other` with an empty text; when a text is given it is the reason the worker's rule (workerController.js:120) picks |
| Lifecycle.StatusRequestError | backend/controllers/reportController.js:226-237 | a missing status is 400, an authority's `completed` is 403, a rejection without reason type is 400, in that order; there is no error exactly when none of the three applies |
| Lifecycle.UpdateStatus | backend/controllers/reportController.js:221-280 | a non-authority is refused; the request errors come first, then 404 for an unknown report, then a validation failure for a status or priority outside the schema; success replaces exactly the status, the priority when one is given, and appends the status entry; a failure changes nothing |
| Lifecycle.StatusSaved | backend/controllers/reportController.js:244-259 | after the request checks, a status or priority outside the schema fails validation with the store unchanged; otherwise the report takes the new status, the given priority and one new timeline entry at its end, and no report is lost |
| Lifecycle.UpdateStatusKeepsValid | backend/controllers/reportController.js:255-259 | a status update keeps the collection valid |
| Lifecycle.UpdateStatusSucceeds | backend/controllers/reportController.js:221-259 | on a valid collection a status update succeeds exactly when an authority with an id names an existing report, a schema status other than `completed`, a reason type for a rejection and no priority or a schema one |
| Lifecycle.Assign | backend/controllers/reportController.js:282-323 | a non-authority is refused; 400 without a worker id, 404 for an unknown report, 404 when the id is not a worker's account; success sets the assignee and appends `Assigned to worker <name>` with the worker id as meta; a failure changes nothing |
| Lifecycle.AssignSucceeds | backend/controllers/reportController.js:287-311 | on a valid collection an assignment succeeds exactly when an authority with an id names an existing report and a worker's account |
| Lifecycle.AssignKeepsValid | backend/controllers/reportController.js:301-311 | an assignment keeps the collection valid |
| Lifecycle.Complete | backend/controllers/reportController.js:325-374 | a non-worker is refused; upload errors, then 400 without a photo, 404 for an unknown report, a server error for a report with no assignee, 403 for another worker; success stores the photo, the note when one is given, status `completed` and the entry `Work completed by <name>`; a failure changes nothing |
| Lifecycle.CompleteSucceeds | backend/controllers/reportController.js:330-366 | on a valid collection a completion succeeds exactly when the assigned worker, with an id and an account, sends an accepted photo that the media store takes |
| Lifecycle.CompleteKeepsValid | backend/controllers/reportController.js:350-366 | a completion keeps the collection valid; in particular a completed report carries its photo |
| Lifecycle.Toggle | backend/controllers/reportController.js:386-392 | the voter is in the new set exactly when it was not in the old one, and every other member is unchanged |
| Lifecycle.Upvote | backend/controllers/reportController.js:376-403 | 404 for an unknown report; otherwise the caller's vote is toggled and the answer says whether the caller now upvotes and how many do; nothing else changes |
| Lifecycle.UpvoteSucceeds | backend/controllers/reportController.js:381-394 | on a valid collection an upvote of an existing report always toggles |
| Lifecycle.UpvoteKeepsValid | backend/controllers/reportController.js:386-394 | an upvote keeps the collection valid |
| Lifecycle.UpvoteToggles | backend/controllers/reportController.js:386-399 | on a well-formed report with its own issueId an upvote is exactly the toggle of the caller's vote |
| Lifecycle.ToggleTwice | backend/controllers/reportController.js:386-392 | toggling the same voter twice gives the set back |
| Lifecycle.UpvoteTwiceRestores | backend/controllers/reportController.js:386-399 | a second upvote by the same caller restores the collection and answers the opposite `upvoted` |
| Lifecycle.Accept | backend/controllers/workerController.js:63-100 | a non-worker is refused; 404 for an unknown report, a server error for a report with no assignee, 403 for another worker, 400 unless the report is pending or approved; success sets `inprogress` and appends the acceptance and the in-progress entries; a failure changes nothing |
| Lifecycle.AcceptSucceeds | backend/controllers/workerController.js:67-92 | on a valid collection an acceptance succeeds exactly when the assigned worker, with an id, accepts a pending or approved report |
| Lifecycle.AcceptKeepsValid | backend/controllers/workerController.js:80-92 | an acceptance keeps the collection valid |
| Lifecycle.RejectByWorker | backend/controllers/workerController.js:102-140 | a non-worker is refused; 400 without a reason type (before any lookup), 404 for an unknown report, a server error for no assignee, 403 for another worker; success sets `rejected` and appends the worker's rejection with its reason, which may be undefined; the current status is not checked; a failure changes nothing |
| Lifecycle.WorkerReason | backend/controllers/workerController.js:120 | the reason is the free text (possibly absent) for reason type `Other`, the reason type otherwise |
| Lifecycle.Rendered | backend/controllers/workerController.js:126 | a reason in the message template is its text, or `undefined` when absent |
| Lifecycle.ReasonMeta | backend/controllers/workerController.js:128 | the meta holds the reason, or an undefined reason when absent |
| Lifecycle.WorkerRejectEntry | backend/controllers/workerController.js:122-129 | the worker's rejection entry: its kind, the message with the rendered reason, the reason as meta, the worker and the time; well-formed for a worker with an id |
| Lifecycle.RejectWithoutTextSaysUndefined | backend/controllers/workerController.js:120-129 | a successful rejection with reason type `Other` and no text records `Report rejected by worker - Reason: undefined` with an undefined reason as meta |
| Lifecycle.AppendedWellformed | backend/models/Report.js:71 | a well-formed report that gains one entry stays well-formed exactly when the entry is |
| Lifecycle.RejectByWorkerSucceeds | backend/controllers/workerController.js:107-132 | on a valid collection a worker's rejection succeeds exactly when the assigned worker, with an id, gives a reason type |
| Lifecycle.RejectByWorkerKeepsValid | backend/controllers/workerController.js:120-132 | a worker's rejection keeps the collection valid |
| ReportStore.Store.constructor | backend/models/Report.js:82 | an empty collection, which is valid |
| ReportStore.Store.Save | backend/models/Report.js:4-74 | saving in place leaves the collection and the answer that `Lifecycle.Save` gives |
| ReportStore.Store.CreateReport | backend/controllers/reportController.js:23-75 | creating in place keeps the collection valid and leaves it and the answer as `Lifecycle.CreateReport` does |
| ReportStore.Store.UpdateStatus | backend/controllers/reportController.js:221-280 | updating in place keeps the collection valid and leaves it and the answer as `Lifecycle.UpdateStatus` does |
| ReportStore.Store.Assign | backend/controllers/reportController.js:282-323 | assigning in place keeps the collection valid and leaves it and the answer as `Lifecycle.Assign` does |
| ReportStore.Store.Complete | backend/controllers/reportController.js:325-374 | completing in place keeps the collection valid and leaves it and the answer as `Lifecycle.Complete` does |
| ReportStore.Store.Upvote | backend/controllers/reportController.js:376-403 | upvoting in place keeps the collection valid and leaves it and the answer as `Lifecycle.Upvote` does |
| ReportStore.Store.Accept | backend/controllers/workerController.js:63-100 | accepting in place keeps the collection valid and leaves it and the answer as `Lifecycle.Accept` does |
| ReportStore.Store.RejectByWorker | backend/controllers/workerController.js:102-140 | rejecting in place keeps the collection valid and leaves it and the answer as `Lifecycle.RejectByWorker` does |
| Queries.NonEmptyItemsMembers | backend/controllers/reportController.js:99 | `.filter(Boolean)` keeps exactly the non-empty items |
| Queries.NonEmptyTrimmedMembers | backend/controllers/reportController.js:99 | the items of a comma list, trimmed and with blanks dropped, are exactly the non-empty trims of its parts |
| Queries.TrimAll | backend/controllers/reportController.js:99 | every comma-separated item is trimmed, in place, none added or dropped |
| Queries.NonEmptyItems | backend/controllers/reportController.js:99 | the filtered list is no longer than the items and holds no empty item |
| Queries.ParseStatusFilter | backend/controllers/reportController.js:94-103 | no status selects any status; `assigned` selects by assignee; a text with a comma becomes the list of its trimmed non-empty parts; any other text is compared exactly |
| Queries.SelectedByStatus | backend/controllers/reportController.js:94-103 | without a status filter every report is selected; a single-status filter selects exactly the reports with that status |
| Queries.AssignedIgnoresStatus | backend/controllers/reportController.js:95-97 | `assigned` selects exactly the reports with an assignee, whatever their status |
| Queries.CommaListSelects | backend/controllers/reportController.js:98-99 | a comma list selects a report exactly when some part of the list, once trimmed, is its status name; a blank part selects nothing |
| Queries.PlainStatusSelects | backend/controllers/reportController.js:100-101 | any other non-empty status text selects exactly the reports whose status name equals it |
| Queries.ParseIdFilter | backend/controllers/reportController.js:106-120 | no reportId selects any id; the input is trimmed; a `GRS-` input is split at its dashes into a sequence number when there are two parts and kept whole otherwise; any other input is a bare id |
| Queries.SelectedById | backend/controllers/reportController.js:106-120 | without an id filter every report is selected; a `GRS-` number selects the issue id it completes; an exact id selects exactly that id; a bare text selects itself and itself under the `GRS-` prefix |
| Queries.SequenceNumberSelects | backend/controllers/reportController.js:108-112 | a trimmed `GRS-X` with one dash selects exactly `GRS-X` and `GRS-X-` followed by six upper-case letters or digits |
| Queries.OneDashSplit | backend/controllers/reportController.js:109-111 | a text that starts with `p-` (with `p` free of dashes) and holds one dash splits into `p` and the rest |
| Queries.LongIdSelectsItself | backend/controllers/reportController.js:113-116 | a `GRS-` input with another number of dashes selects only the issueId equal to it |
| Queries.BareIdSelects | backend/controllers/reportController.js:117-118 | a bare `X` selects exactly `X`, `GRS-X` and `GRS-X-` followed by six upper-case letters or digits |
| Queries.CountCharAppend | backend/controllers/reportController.js:109-110 | the dashes of a concatenation are those of its two parts |
| Queries.Matching | backend/controllers/reportController.js:92-132 | the counted reports are exactly those every given filter (status, priority, author, issue id) selects; with no filter, every report |
| Queries.Selected | backend/controllers/reportController.js:92-120 | an empty query selects every report; a selected report has the creator and the priority the query asks for |
| Queries.Skip | backend/controllers/reportController.js:126-131 | the number of reports skipped is `(page - 1) * limit` with no check: NaN exactly when the page or the limit is not a number, and, for a positive limit, negative exactly when the page is below 1 |
| Queries.MulSign | backend/controllers/reportController.js:131 | with a positive limit the product is negative exactly when the other factor is |
| Queries.PagingAcceptedIff | backend/controllers/reportController.js:126-155 | the paging stages are accepted exactly for a numeric page of at least 1 and a numeric limit of at least 1 |
| Queries.DefaultsAccepted | backend/controllers/reportController.js:83-84 | the defaults, page 1 of 12, are accepted and skip nothing |
| Queries.PagingError | backend/controllers/reportController.js:126-155 | a page or limit the pipeline refuses makes the listing answer a server error, and only such a one does |
| Queries.TotalPages | backend/controllers/reportController.js:169 | the page count is the least number of pages of `limit` reports that hold them all: zero exactly when there are none |
| Queries.PageRange | backend/controllers/reportController.js:126-156 | no range when the paging stages are refused; otherwise a range of at most `limit` positions within the result, starting at the skip when it is not empty |
| Queries.PageOfPosition | backend/controllers/reportController.js:128-169 | every position of the result is shown by page `k / limit + 1`, which is accepted and lies within the page count |
| Queries.SubsetSize | backend/controllers/reportController.js:155-156 | a subset is no larger than its superset, and equal to it when as large |
| Queries.SmallResultWhole | backend/controllers/reportController.js:83-156 | under the default order and limit (newest `limit` matches first, `NewestFirstPage`), a query matching no more than a page is returned whole |
| Queries.OlderThanPageLeftOut | backend/controllers/reportController.js:83-156 | a match with a full page of strictly newer matches is not on the first page |
| Queries.OnlyPageOfPosition | backend/controllers/reportController.js:128-169 | no other page shows that position |
| Queries.Workers | backend/controllers/workerController.js:6-13 | exactly the accounts whose role is worker |
| Queries.Queue | backend/controllers/workerController.js:15-61 | a worker's queue holds exactly the reports assigned to them whose status is one of the given ones |
| Queries.AssignedQueue | backend/controllers/workerController.js:17-20 | exactly the reports assigned to the worker that are pending or approved |
| Queries.InProgressQueue | backend/controllers/workerController.js:33-36 | exactly the reports assigned to the worker that are in progress |
| Queries.CompletedQueue | backend/controllers/workerController.js:49-52 | exactly the reports assigned to the worker that are completed or rejected |
| Queries.QueuesPartition | backend/controllers/workerController.js:15-61 | the three queues are disjoint and together hold every report assigned to the worker |
| Queries.AcceptExactlyAssignedQueue | backend/controllers/workerController.js:63-92 | on a valid collection a worker with an id can accept exactly the reports of their assigned queue |
| Queries.QueueAfterReplace | backend/controllers/workerController.js:15-61 | replacing one report changes a queue at that report only |
| Queries.AcceptMovesBetweenQueues | backend/controllers/workerController.js:80-92 | a successful acceptance moves the report from the worker's assigned queue to their in-progress queue and leaves the completed queue alone |
| Queries.AssignedToAWorker | backend/controllers/reportController.js:296-301 | only an account that getWorkers lists can be assigned, and it becomes the report's assignee |
| Comments.DetermineRoleTag | backend/controllers/commentController.js:5-9 | an authority is tagged `authority`, a worker `worker`, and every other role gets no tag, each in both directions |
| Comments.ParentOf | backend/controllers/commentController.js:77 | the stored parent is `parentComment` when given, else `parentCommentId` when given, else null; its existence is not checked |
| Comments.CountIn | backend/controllers/commentController.js:53-66 | the count of the author's replies (or top-level comments) on a report is zero exactly when the collection holds none |
| Comments.NewComment | backend/controllers/commentController.js:73-79 | the new comment belongs to the report and the caller, carries the caller's role tag and the chosen parent |
| Comments.CreateComment | backend/controllers/commentController.js:30-88 | 400 without content, then 404 for a missing report, then 403 for a non-authority author who already has a comment of the same kind (reply or top-level) on the report; success appends exactly one comment and happens exactly when none of these applies; a failure changes nothing; the collection stays within the limits |
| Comments.OfReport | backend/controllers/commentController.js:20 | exactly the comments of the report, each at most as often as stored |
| Comments.GetComments | backend/controllers/commentController.js:11-28 | 404 exactly for a missing report; otherwise that report's comments and no others, newest first |
| Comments.CommentBoard.constructor | backend/models/Comment.js:33 | an empty collection, within the limits |
| Comments.CommentBoard.Count | backend/controllers/commentController.js:53-66 | the loop counts exactly `CountIn` |
| Comments.CommentBoard.Create | backend/controllers/commentController.js:30-88 | creating in place keeps the limits and leaves the collection and the answer as `CreateComment` does |
| Comments.CommentBoard.CommentsOf | backend/controllers/commentController.js:20 | the loop gathers exactly `OfReport` |
| Comments.SecondInSlotRefused | backend/controllers/commentController.js:50-70 | after a non-authority author's comment (or reply) is stored, their next one of the same kind on that report is refused with 403 |
| CommentTree.ParentId | frontend/src/components/comments.jsx:42-45 | the parent id is never empty and is absent for a null parent |
| CommentTree.Placement | frontend/src/components/comments.jsx:47-48 | a comment goes under its parent exactly when the parent id is one of the listed ids, to the roots otherwise (orphans included) |
| CommentTree.PlacedMembers | frontend/src/components/comments.jsx:41-49 | an id is placed in a slot exactly when a listed comment with that id belongs there |
| CommentTree.EmptySlots | frontend/src/components/comments.jsx:39 | the first pass gives every listed id an empty reply list and no other id one |
| CommentTree.PlaceNext | frontend/src/components/comments.jsx:47-48 | one step of the second pass extends the tree built so far by the next comment's placement |
| CommentTree.BuildCommentTree | frontend/src/components/comments.jsx:35-52 | the roots are the ids placed at the root and each id's replies are the ids placed under it, in list order |
| CommentTree.PlacedExactlyOnce | frontend/src/components/comments.jsx:41-49 | with distinct ids every comment is placed exactly once, in the slot it belongs to, and in no other |
| CommentTree.PlacedKeepsOrder | frontend/src/components/comments.jsx:41-49 | input order is kept within the roots and within every reply list |
| CommentTree.MyCount | frontend/src/components/comments.jsx:89-95 | the caller's top-level (or reply) count is zero exactly when no comment of theirs of that kind is listed |
| CommentTree.CanPost | frontend/src/components/comments.jsx:96-97 | posting is offered exactly when there is no user, the user is an authority, or their count of that kind is zero |
| CommentTree.ToClientAll | backend/controllers/commentController.js:20-24 | the listing sends every stored comment, in order |
| CommentTree.CountsAgree | frontend/src/components/comments.jsx:90-95 | on one report's comments the client's counts equal the server's counts |
| CommentTree.GateAgreesWithServer | frontend/src/components/comments.jsx:96-97 | a signed-in non-authority user is offered a form exactly when the server would not refuse on the limit |
| CommentTree.SubmittedHasContent | frontend/src/components/comments.jsx:56 | a text the client submits is never empty, so it passes the server's content check |
| CommentTree.ShouldSubmit | frontend/src/components/comments.jsx:56 | a comment or reply is sent exactly when its text is not all blank |
| CommentTree.VisibleRoots | frontend/src/components/comments.jsx:287-289 | all roots when expanded, otherwise the first five (or all when there are fewer) |
| CommentTree.MoreComments | frontend/src/components/comments.jsx:292-300 | the "View more comments" count is shown exactly when there are more than five roots and the list is collapsed |
| CommentTree.CollapsedCoversAll | frontend/src/components/comments.jsx:287-300 | the collapsed roots and the "view more" count account for every root |
| CommentTree.ShownReplies | frontend/src/components/comments.jsx:179-205 | the first reply is always shown, all replies when expanded, and the shown ones are a prefix |
| CommentTree.MoreReplies | frontend/src/components/comments.jsx:184-196 | the "View n more" count is at least one and the shown replies plus it are all replies; without it all replies are shown |
| Notices.NewNotice | backend/controllers/noticeController.js:47-53 | a new notice is active, belongs to the caller, keeps the title and audience, has a description exactly when one was given, and the uploaded PDF address or none |
| Notices.CreateNotice | backend/controllers/noticeController.js:30-90 | 400 without a title (checked first), then 400 for an attached file that is not a PDF; success happens exactly when there is a title, a caller id, a stored PDF if a file was attached and a schema audience (public when absent), and adds exactly the new notice; a failure changes nothing; the collection stays valid |
| Notices.PostNotice | backend/routes/noticeRoutes.js:35 | a non-authority is refused; the notice upload step's error, mapped by its handler, comes next; otherwise the answer and the collection are those of createNotice |
| Notices.HandlerPdfCheckUnreachable | backend/controllers/noticeController.js:39-42 | through the route the handler's own PDF check never answers: a non-PDF file is refused by the upload step first, even before a missing title |
| Notices.ActiveEmails | backend/controllers/noticeController.js:64-67 | exactly the addresses of the active accounts with the given role |
| Notices.RecordEmail | backend/models/Worker.js:3-22 | a `Worker` document carries no e-mail address, as its schema has no such field |
| Notices.RecipientsAsWritten | backend/controllers/noticeController.js:61-77 | as written, a public or absent audience mails exactly the active citizens, and a worker audience mails no address at all (the worker records carry none) |
| Notices.WorkerNoticeReachesNobody | backend/controllers/noticeController.js:70-77 | an active worker account is not mailed a worker notice as written, though the intended recipients include it |
| Notices.Recipients | backend/controllers/noticeController.js:61-77 | as intended, a public or absent audience mails the active citizens and a worker audience the active workers; any other audience mails nobody |
| Notices.PublicNotices | backend/controllers/noticeController.js:92-102 | exactly the active notices whose audience is public |
| Notices.WorkerNotices | backend/controllers/noticeController.js:104-120 | exactly the active notices whose audience is worker; public notices are excluded |
| Notices.AllNotices | backend/controllers/noticeController.js:122-132 | every notice, active or not |
| Notices.ViewPdf | backend/controllers/noticeController.js:158-169 | 404 for an unknown notice or one without a PDF; otherwise the stored PDF streamed inline; view and download refuse the same requests in the same words and stream the same address |
| Notices.ListingsPartitionActive | backend/controllers/noticeController.js:92-132 | the public and worker listings are disjoint and together hold exactly the active notices |
| Notices.PdfLookup | backend/controllers/noticeController.js:158-169 | 404 `Notice not found` for a missing notice, then 404 `No PDF attached to this notice` for a missing or empty address; the stored address is streamed exactly otherwise |
| Notices.DownloadPdf | backend/controllers/noticeController.js:171-185 | the same refusals as the view; a stream is the same address sent as `notice-<id>.pdf` |
| Notices.DeleteNotice | backend/controllers/noticeController.js:187-203 | 404 for a missing notice; otherwise the notice is removed outright (whatever isActive is) and every other notice is kept unchanged; the collection stays valid |
| Notices.CreateThenDelete | backend/controllers/noticeController.js:30-203 | a newly created public notice is listed publicly, and deleting it restores the collection, after which no listing or PDF lookup finds it |
| Notices.NoticeBoard.constructor | backend/models/Notice.js:35 | an empty, valid collection |
| Notices.NoticeBoard.Create | backend/controllers/noticeController.js:30-90 | creating in place keeps the collection valid and leaves it and the answer as `CreateNotice` does |
| Notices.NoticeBoard.Delete | backend/controllers/noticeController.js:187-203 | deleting in place keeps the collection valid and leaves it and the answer as `DeleteNotice` does |
| Uploads.GenericUpload | backend/config/multer.js:6-22 | a missing file passes; otherwise a file passes exactly when its type is JPEG, PNG, GIF or PDF and it is at most 10 MiB; the type is checked first, with its own message, then the size |
| Uploads.NoticeUpload | backend/config/multer.js:25-37 | a missing file passes; otherwise a file passes exactly when it is a PDF of at most 1 MiB; the type is checked first, with its own message, then the size |
| Uploads.HandleMulterError | backend/routes/noticeRoutes.js:18-29 | every upload error becomes a 400 with a non-empty message: the fixed size message for an oversized file, otherwise the error's own message or `File upload error` |
| Uploads.NoticeUploadRefusals | backend/routes/noticeRoutes.js:18-29 | a refusal of the notice upload step always reaches the client as one of the two 400 answers, never as a server error |
| Uploads.NoticeRulesTighter | backend/config/multer.js:6-37 | every file the notice configuration accepts, the generic one accepts too |
| Routes.Mount | backend/server.js:30-37 | a mounted router has the same routes, in the same order, each under the prefix |
| Routes.ResolveRequest | backend/server.js:30-37 | a request reaches a handler only when its path starts with `notices` or `api` |
| Routes.OutsideMount | backend/server.js:30-37 | a mounted router claims no empty path and no path whose first segment differs from its mount prefix |
| Routes.Resolve | backend/routes/reportRoutes.js:18-25 | no handler exactly when no route matches; otherwise the handler of the first route, in registration order, that matches |
| Routes.ResolveFirstMatch | backend/routes/reportRoutes.js:18-25 | the first matching route decides the handler |
| Routes.MountMismatch | backend/server.js:30-37 | a router whose prefix does not match the path claims no request |
| Routes.ReportRouterMy | backend/routes/reportRoutes.js:20-21 | in the report router `GET /my` reaches the caller's own reports, being registered before `/:id` |
| Routes.MyIsNeverAnId | backend/routes/reportRoutes.js:20-21 | in the application `GET /api/reports/my` reaches the caller's own reports, never the lookup by id |
| Routes.NoticeRouterView | backend/routes/noticeRoutes.js:31-32 | under any matching prefix, a GET for `<id>.pdf` reaches the PDF view, the notice router's first route |
| Routes.ViewRouteMatches | backend/routes/noticeRoutes.js:32 | under a matching prefix `<id>.pdf` matches the PDF view route |
| Routes.ViewFirst | backend/routes/noticeRoutes.js:32 | a table that starts with the PDF view route sends `<id>.pdf` there |
| Routes.DownloadRouteMatches | backend/routes/noticeRoutes.js:32-33 | under a matching prefix `<id>/download` matches the download route and not the PDF view route |
| Routes.NoticeRouterDownload | backend/routes/noticeRoutes.js:32-33 | under any matching prefix, a GET for `<id>/download` reaches the PDF download |
| Routes.DownloadAfterView | backend/routes/noticeRoutes.js:32-33 | the same for any table that starts with the PDF view and the download routes |
| Routes.PdfViewReachable | backend/server.js:30 | `GET /notices/<id>.pdf` reaches the PDF view in the application |
| Routes.PdfDownloadReachable | backend/server.js:30 | `GET /notices/<id>/download` reaches the PDF download in the application |
| Routes.NoticeMountSkips | backend/server.js:30 | the `/notices` mount claims no path outside `/notices` |
| Routes.ReportMountsSkip | backend/server.js:33-34 | neither the report router nor the comment router claims a path under `/api` whose second segment is not `reports` |
| Routes.ApiNoticeRouterView | backend/server.js:35 | the `/api/notices` mount serves the PDF view |
| Routes.ApiNoticeRouterDownload | backend/server.js:35 | the `/api/notices` mount serves the PDF download |
| Routes.ApiPdfViewReachable | backend/server.js:30-35 | `GET /api/notices/<id>.pdf` reaches the PDF view in the application, past the earlier mounts |
| Routes.ApiPdfDownloadReachable | backend/server.js:30-35 | `GET /api/notices/<id>/download` reaches the PDF download in the application, past the earlier mounts |
| Routes.AnonymousAccess | backend/routes/reportRoutes.js:19-21 | exactly six handlers admit an anonymous request: the report listing and lookup, the PDF view and download, the public notices and the comment listing |
| Routes.AuthorityOnly | backend/routes/reportRoutes.js:22-23 | exactly the status update, the assignment, the worker list, notice creation, the full notice list, notice deletion and the authority analytics require the authority role |
| Routes.WorkerOnly | backend/routes/workerRoutes.js:19-23 | exactly the completion, the three queues, accept, reject, the worker notices and the worker analytics require the worker role |
| Routes.NoCitizenOnlyRoute | backend/routes/reportRoutes.js:18-25 | no handler is reserved to citizens |
| Routes.GuardOf | backend/routes/reportRoutes.js:18-25 | exactly six handlers are open to anyone (the report list and lookup, the PDF view and download, the public notices, the comment list), and no role check names the citizen role |
| Routes.Admits | backend/routes/reportRoutes.js:22-24 | an anonymous request passes only an open guard; a signed-in caller is refused only by a role check for another role |
| Routes.UploadStepOf | backend/routes/reportRoutes.js:18-24 | exactly the report creation and the completion take a file through the generic upload step, and exactly the notice creation through the PDF step |
| Analytics.Count | backend/controllers/analyticsController.js:33-44 | a `countDocuments` count never exceeds the number of reports |
| Analytics.CountBounds | backend/controllers/analyticsController.js:33-44 | a count is zero exactly when no report matches, and equals the number of reports exactly when every report matches |
| Analytics.CountAny | backend/controllers/analyticsController.js:6 | with no worker the count is every report (`totalReports`) |
| Analytics.StatusPartition | backend/controllers/analyticsController.js:88-106 | the five single-status counts of a worker (or of everyone) add up to all their reports, and the `$in: ['pending','approved']` count is the pending count plus the approved count |
| Analytics.TotalIsSumOfStatusCounts | backend/controllers/analyticsController.js:6-27 | `totalReports` equals the sum of the five status counts |
| Analytics.Applied | backend/controllers/analyticsController.js:25-27 | applying the grouped rows to a map keeps its keys and adds the row ids |
| Analytics.AppliedLookup | backend/controllers/analyticsController.js:25-27 | with distinct row ids, a row's status holds that row's count afterwards |
| Analytics.AppliedUntouched | backend/controllers/analyticsController.js:17-27 | a status no row names keeps its initial value |
| Analytics.StatusMap | backend/controllers/analyticsController.js:17-27 | the handler's loop over the grouped rows yields the five-zero map with each row applied in turn |
| Analytics.StatusMapKeys | backend/controllers/analyticsController.js:17-27 | `statusCounts` has exactly the five status keys |
| Analytics.StatusMapEntry | backend/controllers/analyticsController.js:8-27 | for any grouping of the reports by status, each key of `statusCounts` holds the number of reports in that status, zero when there are none |
| Analytics.RejectionRate | backend/controllers/analyticsController.js:52 | the rate lies in 0..100; it is 0 exactly when nothing was rejected, 100 exactly when something was rejected and nothing completed, and otherwise it is rejected / (completed + rejected) · 100 |
| Analytics.Performance | backend/controllers/analyticsController.js:32-53 | a worker's entry carries their id and name, their completed, rejected and in-progress counts, and the rejection rate of those counts |
| Analytics.WorkerPerformance | backend/controllers/analyticsController.js:29-55 | one entry per listed worker, in the order listed, each that worker's performance |
| Analytics.OneEntryPerWorker | backend/controllers/analyticsController.js:29-31 | an id has an entry in `workerPerformance` exactly when it is a worker account |
| Analytics.PrioritiesAt | backend/controllers/analyticsController.js:62 | the `$push` of priorities at one address has at most one entry per report |
| Analytics.FindGroup | backend/controllers/analyticsController.js:59-63 | the index of the group for an address, or -1 exactly when no group has that address |
| Analytics.PrioritiesSnoc | backend/controllers/analyticsController.js:62 | one more report adds its priority to its own address's list and to no other |
| Analytics.AddToGroups | backend/controllers/analyticsController.js:59-63 | adding a report keeps every existing group's address, adds at most one group, and leaves a group for the report's address |
| Analytics.AddToGroupsCounts | backend/controllers/analyticsController.js:59-63 | after adding a report every group still counts and lists the priorities of exactly its address's reports |
| Analytics.PriorityWitness | backend/controllers/analyticsController.js:62 | an address with a listed priority has a report at that address |
| Analytics.AddToGroupsGroups | backend/controllers/analyticsController.js:59-63 | adding a report to a grouping of the reports gives a grouping of the reports with it |
| Analytics.GroupByAddress | backend/controllers/analyticsController.js:59-63 | the `$group` by address has one row per occurring address, none twice, each with its report count and priorities |
| Analytics.LocationStats | backend/controllers/analyticsController.js:57-71 | `locationStats` holds at most twenty address groups, largest count first, each a true group of the reports and no address twice |
| Analytics.SortKeepsGrouping | backend/controllers/analyticsController.js:65-67 | any reordering of the groups still consists of true, distinct address groups |
| Analytics.DistinctOnce | backend/controllers/analyticsController.js:59-63 | a group in a grouping with distinct addresses occurs in it exactly once |
| Analytics.Top | backend/controllers/analyticsController.js:68-70 | `$limit` keeps a prefix of at most `n` rows, and everything when there are no more than `n` |
| Analytics.TopOfSorted | backend/controllers/analyticsController.js:65-70 | a row `$limit` leaves out of a sorted sequence means `n` rows were kept, each counting at least as much |
| Analytics.LocationStatsAreTheTop | backend/controllers/analyticsController.js:57-71 | an address group left out of `locationStats` means twenty are shown, each with at least as many reports |
| Analytics.WorkerAnalytics | backend/controllers/analyticsController.js:84-117 | the worker's `completedCount`, `inprogressCount` and `rejectedCount` are the counts of their assigned reports in those statuses and `pendingAssignedCount` is their pending plus approved count; the four counts add up to all the reports assigned to them; the rejection rate is the same formula as on the authority dashboard |
| PdfHelper.GetPdfUrl | frontend/src/utils/pdfHelper.js:9-11 | the first set field among pdfUrl, pdf and attachmentUrl; empty exactly when all three are |
| PdfHelper.ApiBaseUrl | frontend/src/utils/pdfHelper.js:5 | the configured API base, or the local default when unset; never empty |
| PdfHelper.BackendBaseAsWritten | frontend/src/utils/pdfHelper.js:4-6 | the base as written is the configured API address with its first `/api` removed, or unchanged when it has none |
| PdfHelper.RemovesFirstApi | frontend/src/utils/pdfHelper.js:5 | `replace('/api', '')` removes the first `/api` only |
| PdfHelper.BaseAsWrittenMangles | frontend/src/utils/pdfHelper.js:5 | for an API host starting with `api.` the code as written strips the scheme's slash instead of the suffix |
| PdfHelper.BackendBase | frontend/src/utils/pdfHelper.js:3-6 | the API base without its trailing `/api`; a base without that suffix is kept |
| PdfHelper.RemovesTrailing | frontend/src/utils/pdfHelper.js:5 | when the first occurrence of a pattern ends the text, replacing it drops exactly that suffix |
| PdfHelper.AsWrittenAgreesWhenSuffixIsFirst | frontend/src/utils/pdfHelper.js:5 | when the trailing `/api` is the first one, the code as written gives the intended base |
| PdfHelper.DefaultBackendBase | frontend/src/utils/pdfHelper.js:5 | with nothing configured the intended base is `http://localhost:5000` |
| PdfHelper.DefaultBaseAsWritten | frontend/src/utils/pdfHelper.js:5 | with nothing configured the code as written also gives `http://localhost:5000`, the intended base |
| PdfHelper.JoinedUnder | frontend/src/utils/pdfHelper.js:16 | joining two or three segments with `/` under a base gives the template's address |
| PdfHelper.ViewAt | frontend/src/utils/pdfHelper.js:16 | the view address is the base, then `/notices/<id>.pdf`, which is the base joined with the view route's path segments |
| PdfHelper.DownloadAt | frontend/src/utils/pdfHelper.js:22 | the download address is the base, then `/notices/<id>/download`, which is the base joined with the download route's path segments |
| PdfHelper.ViewUrl | frontend/src/utils/pdfHelper.js:3-17 | the view address is the base from `getBackendBaseUrl` as written (first `/api` removed) followed by `/notices/<id>.pdf` |
| PdfHelper.IntendedViewUrl | frontend/src/utils/pdfHelper.js:14-17 | the view address on the intended base (trailing `/api` removed) |
| PdfHelper.UrlsAgreeWhenSuffixIsFirst | frontend/src/utils/pdfHelper.js:3-23 | when the configured base's trailing `/api` is its first, the view and download addresses as written are the intended ones |
| PdfHelper.ViewUrlMangled | frontend/src/utils/pdfHelper.js:5-23 | with an API host starting with `api.` (`https://api.example.com/api`) the buttons open `https:/.example.com/api/notices/<id>.pdf` and `…/<id>/download` |
| PdfHelper.DownloadUrl | frontend/src/utils/pdfHelper.js:3-23 | the download address is the base from `getBackendBaseUrl` as written followed by `/notices/<id>/download` |
| PdfHelper.IntendedDownloadUrl | frontend/src/utils/pdfHelper.js:20-23 | the download address on the intended base |
| PdfHelper.PathsReachHandlers | backend/routes/noticeRoutes.js:32-33 | the two paths the helper builds reach the backend's PDF view and PDF download handlers |
| PdfHelper.DownloadName | frontend/src/utils/pdfHelper.js:46 | the file name is the title with `.pdf`, or `notice.pdf` without a title; it always ends in `.pdf` |
| PdfHelper.HandleViewPdf | frontend/src/utils/pdfHelper.js:26-34 | with no attachment only the error message, when a toast is given; otherwise the view address as written opens; never a download |
| PdfHelper.HandleDownloadPdf | frontend/src/utils/pdfHelper.js:37-50 | with no attachment only the error message, when a toast is given; otherwise a download of the download address as written under the title's file name; never a new tab |
| PdfHelper.FromStored | backend/controllers/noticeController.js:92-101 | the notice the pages receive keeps the stored id and title |
| PdfHelper.ButtonsMatchBackend | backend/controllers/noticeController.js:158-169 | for a stored notice the buttons find an attachment exactly when the backend's view answers with the stream, and it is the same address |
| ReportManagement.ParseTab | frontend/src/pages/dashboards/AuthorityReportManagement.jsx:44-64 | the three tab keys `pending`, `participated` and `completed`, each exactly |
| ReportManagement.TabPageSizeIsDefault | backend/controllers/reportController.js:83-84 | a tab's request carries no page or limit, so it receives page 1 of 12 |
| ReportManagement.TabMatches | frontend/src/pages/dashboards/AuthorityReportManagement.jsx:44-60 | the reports a tab's status query selects are stored reports (which statuses: `TabMatchesByStatus`) |
| ReportManagement.TabMatchesByStatus | frontend/src/pages/dashboards/AuthorityReportManagement.jsx:44-60 | a stored report matches a tab's query exactly when its status is one the tab names |
| ReportManagement.TabStatusQuery | frontend/src/pages/dashboards/AuthorityReportManagement.jsx:46-60 | no tab asks with an empty status filter or with `assigned`, so every tab's filter is a status list |
| ReportManagement.ClientKeeps | frontend/src/pages/dashboards/AuthorityReportManagement.jsx:47-61 | of the reports whose status a tab asks for, the page keeps exactly those that belong to that tab |
| ReportManagement.TabReports | frontend/src/pages/dashboards/AuthorityReportManagement.jsx:41-64 | a report is shown exactly when the tab is known, it is on the first page the listing returned for the tab's status query and the page's own filter keeps it; an unknown tab shows nothing |
| ReportManagement.TabOf | frontend/src/pages/dashboards/AuthorityReportManagement.jsx:37-40 | the not-participated tab is exactly the unassigned pending reports, the finished tab exactly the completed and rejected ones; a report's tab is one whose query names its status |
| ReportManagement.TrimOfWord | backend/controllers/reportController.js:99 | a word with no blank at either end is its own trim |
| ReportManagement.NameIsItem | backend/controllers/reportController.js:99 | every status name is non-empty, has no comma and is its own trim |
| ReportManagement.LowercaseWordIsItem | backend/controllers/reportController.js:99 | a lower-case status word has no comma and is its own trimmed text |
| ReportManagement.CleanItemKept | backend/controllers/reportController.js:99 | a clean item survives the trim-and-drop-empty step unchanged, at the front |
| ReportManagement.SplitTwo | backend/controllers/reportController.js:99 | splitting two comma-free items joined by a comma gives the two items |
| ReportManagement.SplitThree | backend/controllers/reportController.js:99 | the same for three items |
| ReportManagement.AssignedIsNotAList | backend/controllers/reportController.js:95-98 | a status parameter with a comma is never the special value `assigned` |
| ReportManagement.TwoItemFilter | backend/controllers/reportController.js:94-102 | the listing reads a list of two clean items as the `$in` of those two |
| ReportManagement.ThreeItemFilter | backend/controllers/reportController.js:94-102 | the listing reads a list of three clean items as the `$in` of those three |
| ReportManagement.SameName | backend/models/Report.js:52 | two statuses have the same name exactly when they are the same status |
| ReportManagement.QuerySelects | frontend/src/pages/dashboards/AuthorityReportManagement.jsx:46-60 | the status query of each tab selects exactly the reports whose status the tab names: pending; approved, in progress or pending; completed or rejected |
| ReportManagement.PendingQuerySelects | frontend/src/pages/dashboards/AuthorityReportManagement.jsx:46 | `status=pending` selects exactly the pending reports |
| ReportManagement.ParticipatedFilter | frontend/src/pages/dashboards/AuthorityReportManagement.jsx:51 | `approved,inprogress,pending` is read as the `$in` of those three names |
| ReportManagement.ParticipatedQuerySelects | frontend/src/pages/dashboards/AuthorityReportManagement.jsx:51 | that query selects exactly the approved, in-progress and pending reports |
| ReportManagement.FinishedFilter | frontend/src/pages/dashboards/AuthorityReportManagement.jsx:60 | `completed,rejected` is read as the `$in` of those two names |
| ReportManagement.FinishedQuerySelects | frontend/src/pages/dashboards/AuthorityReportManagement.jsx:60 | that query selects exactly the completed and rejected reports |
| ReportManagement.AtMostOneTab | frontend/src/pages/dashboards/AuthorityReportManagement.jsx:37-64 | a report is shown by no tab but the one `TabOf` names, and by that one whenever its query matches at most twelve reports |
| ReportManagement.HiddenBehindNewer | frontend/src/pages/dashboards/AuthorityReportManagement.jsx:44-60 | a report with twelve newer reports matching its own tab's query is shown on no tab, whichever tab key is open |
| ReportManagement.Prefill | frontend/src/pages/dashboards/AuthorityReportManagement.jsx:86-95 | the form starts from the report's own status (any of the five, `completed` included) and priority (`normal` for a missing one), and the current assignee or nothing |
| ReportManagement.Payload | frontend/src/pages/dashboards/AuthorityReportManagement.jsx:97-105 | the PATCH carries the form's status and priority; a rejection adds reason type `Other` and the trimmed reason, so the reason the backend records is that trimmed text; otherwise no reason is sent |
| ReportManagement.UpdateDisabled | frontend/src/pages/dashboards/AuthorityReportManagement.jsx:249 | the Update button is enabled exactly when no update is in flight and a rejection carries a reason that is not blank |
| ReportManagement.EnabledUpdatePassesRequestChecks | frontend/src/pages/dashboards/AuthorityReportManagement.jsx:86-105 | a request the enabled Update button sends with any status the form can hold passes the handler's status checks, except a pre-filled `completed`, which meets the 403; a rejection's recorded reason is never blank |
| ReportManagement.FormStatuses | frontend/src/pages/dashboards/AuthorityReportManagement.jsx:86-95 | the offered statuses parse and are not `completed`; a pre-filled status is the report's own |
| ReportManagement.PrefilledCompletedRefused | frontend/src/pages/dashboards/AuthorityReportManagement.jsx:86-105 | Manage on a completed report pre-fills `completed`, leaves Update enabled, and the request is answered 403 with nothing changed |
| ReportManagement.OfferedOutsideSchema | frontend/src/pages/dashboards/AuthorityReportManagement.jsx:242-244 | of the three priorities offered, exactly `normal` and `urgent` are outside the schema |
| ReportManagement.OfferedPriorityRefused | frontend/src/pages/dashboards/AuthorityReportManagement.jsx:242-244 | an enabled update of an existing report with `normal` or `urgent` ends in a server error from the failed validation (a 403 when the status is the pre-filled `completed`) and leaves the store as it was |
| ReportManagement.PrefilledPriorityInSchema | frontend/src/pages/dashboards/AuthorityReportManagement.jsx:90 | a stored report's priority, pre-filled, is one of the schema's |
| ReportManagement.OptionsParse | backend/models/Report.js:45-49 | every schema priority parses |
| ReportManagement.OfferedPriorityAccepted | frontend/src/pages/dashboards/AuthorityReportManagement.jsx:234-249 | offering the schema's priorities instead (a stored report's own priority is one), an enabled update of an existing report by a signed-in authority succeeds exactly when its status is not the pre-filled `completed` |
| ReportManagement.AssignRequest | frontend/src/pages/dashboards/AuthorityReportManagement.jsx:117-121 | nothing is sent without a chosen worker; otherwise the chosen worker's id |
| ReportManagement.SentAssignHasWorker | backend/controllers/reportController.js:288 | an assignment the page sends never meets `Worker ID is required` |
| NoticePages.TotalPages | frontend/src/pages/dashboards/AuthorityNotice.jsx:123-126 | the fewest pages of five that hold all the notices, and never fewer than one: an empty list has exactly one page |
| NoticePages.SliceBound | frontend/src/pages/dashboards/AuthorityNotice.jsx:128-131 | a slice bound is clamped to the list: kept when inside it, the length when past it |
| NoticePages.Slice | frontend/src/pages/dashboards/AuthorityNotice.jsx:128-131 | `slice` gives the elements between the clamped bounds, or nothing when they cross |
| NoticePages.PageContents | frontend/src/pages/NoticePage.jsx:45-48 | a page shows at most five notices, the ones from position (page − 1) · 5 on, in list order, and each row's serial number is its position in the whole list counted from 1 |
| NoticePages.PageEmptiness | frontend/src/pages/dashboards/WorkerNotice.jsx:39-47 | a page within range of a non-empty list shows at least one notice; a page past the last shows none |
| NoticePages.EveryNoticeOnItsPage | frontend/src/pages/dashboards/AuthorityNotice.jsx:123-131 | notice i is row i mod 5 of page i div 5 + 1, a page within range, numbered i + 1 |
| NoticePages.Pager.constructor | frontend/src/pages/dashboards/AuthorityNotice.jsx:39 | the pages start on page 1 with no notices |
| NoticePages.Pager.Load | frontend/src/pages/NoticePage.jsx:24-32 | a load replaces the list and goes back to page 1, which then shows the first five notices |
| NoticePages.Pager.Refresh | frontend/src/pages/dashboards/AuthorityNotice.jsx:151 | the authority page's re-fetch replaces the list and keeps the page number |
| NoticePages.Pager.ChangePage | frontend/src/pages/dashboards/WorkerNotice.jsx:49-52 | a page within [1, totalPages] is taken, any other is ignored; a page in range stays in range |
| NoticePages.StalePageShowsNothing | frontend/src/pages/dashboards/AuthorityNotice.jsx:146-151 | after a re-fetch shrinks the list below the kept page, the table is empty |
| NoticePages.PublicPageAudience | frontend/src/pages/NoticePage.jsx:125 | the audience column shows the audience, else the type, else `public`; never empty |
| NoticePages.WorkerPageAudience | frontend/src/pages/dashboards/WorkerNotice.jsx:117 | the audience column shows the audience, else `worker`; never empty |
| NoticePages.StoredAudienceShown | backend/models/Notice.js:17-21 | a stored notice always has an audience, so both columns show it and no fallback appears |
| NoticePages.CreateForm.constructor | frontend/src/pages/dashboards/AuthorityNotice.jsx:30-35 | the form starts empty with audience `public` and no file |
| NoticePages.CreateForm.Edit | frontend/src/pages/dashboards/AuthorityNotice.jsx:52-55 | editing the title or description changes those two fields only |
| NoticePages.CreateForm.ChooseAudience | frontend/src/pages/dashboards/AuthorityNotice.jsx:52-55 | choosing an audience sets it to one of the two names and changes nothing else |
| NoticePages.CreateForm.SelectFile | frontend/src/pages/dashboards/AuthorityNotice.jsx:57-77 | no file clears the choice; a non-PDF or a PDF over 1048576 bytes gets its message, clears the input and keeps the earlier file; any other file is kept; a kept file is always an acceptable PDF |
| NoticePages.CreateForm.Submit | frontend/src/pages/dashboards/AuthorityNotice.jsx:79-91 | nothing is sent exactly when the trimmed title is empty; otherwise the form's fields, and the file only when one is kept |
| NoticePages.CreateForm.Reset | frontend/src/pages/dashboards/AuthorityNotice.jsx:98-106 | after a create the form is empty again with audience `public` and no file |
| NoticePages.FormMatchesUploadStep | backend/config/multer.js:27-37 | the form keeps a file exactly when the server's notice upload step would accept it |
| NoticePages.SentRequestIsCreated | backend/controllers/noticeController.js:30-60 | a request the form sends, by an authority whose id is known, creates the notice whenever the media store stores its file |
| Text.TrimStart | backend/controllers/reportController.js:107 | the leading white space is dropped and nothing else: the result is a suffix, everything before it is blank, and it does not start with a blank |
| Text.TrimEnd | backend/controllers/reportController.js:107 | the trailing white space is dropped and nothing else: the result is a prefix, everything after it is blank, and it does not end with a blank |
| Text.Trim | backend/controllers/reportController.js:99 | the trimmed text neither starts nor ends with a blank, and is empty exactly when the text is all blank |
| Text.TrimIsSlice | backend/controllers/reportController.js:99 | the trimmed text is a slice of the text with only blanks cut off before and after it |
| Text.TrimStartOfTrimmed | backend/controllers/reportController.js:99 | a text not starting with a blank keeps its start |
| Text.TrimEndOfTrimmed | backend/controllers/reportController.js:99 | a text not ending with a blank keeps its end |
| Text.TrimIdempotent | backend/controllers/reportController.js:107 | trimming twice is trimming once |
| Text.CountChar | backend/controllers/reportController.js:98 | a character's count is zero exactly when it does not occur |
| Text.Split | backend/controllers/reportController.js:99 | `split` gives one piece more than there are separators, no piece holds the separator, and joining the pieces with it gives the text back |
| Text.SplitWithoutSeparator | backend/controllers/reportController.js:109 | a text without the separator splits into itself |
| Text.SplitAfterFirstSeparator | backend/controllers/reportController.js:109 | splitting at the first separator gives the text before it, then the split of the rest |
| Text.Join | frontend/src/utils/pdfHelper.js:16 | joining one part gives the part, and each further part adds a separator |
| Text.SplitJoin | backend/controllers/reportController.js:99 | splitting a join on the separator gives back the parts, when no part holds the separator |
| Text.StartsWith | backend/controllers/reportController.js:108 | a text starts with a prefix exactly when it agrees with the prefix on each of the prefix's characters |
| Text.IndexOf | frontend/src/utils/pdfHelper.js:5 | the index where the pattern first occurs, or -1 exactly when it occurs nowhere |
| Text.OccursAfterFirst | frontend/src/utils/pdfHelper.js:5 | an occurrence past the first character is an occurrence in the rest of the text, one position earlier |
| Text.ReplaceFirst | frontend/src/utils/pdfHelper.js:5 | `replace` with a string pattern replaces the first occurrence and only that one; a text without the pattern comes back unchanged |
| Ordering.InsertDesc | backend/controllers/commentController.js:22 | inserting into a sequence ordered largest key first keeps it ordered and adds exactly the element |
| Ordering.SortDesc | backend/controllers/analyticsController.js:65-67 | the sort orders by key, largest first, and is a permutation of its input |

## Left out

- Cloudinary uploads are not modelled as network calls: the stored address, or a failure, is a parameter of each creating or completing operation.
- The remote PDF streaming (`streamRemotePdf`) is not modelled: view and download end at the decision to stream a given address, and the remote status codes are not modelled.
- E-mail delivery (`emailService.js`, `nodemailer.js`) is not modelled; notice creation models only the set of addresses to be mailed. `sendMail` swallows transport errors, but every template reads the recipient's name before it sends (emailService.js:97-267), so a missing recipient account is an uncaught error. For `createReport`, which loads the caller's account after the save, this is modelled: `Lifecycle.CreateReport` answers 500 with the report stored. The handlers that mail a report's creator after their save (status update, assignment, completion, acceptance and rejection by a worker) would likewise answer 500 with the change stored if that creator's account were gone. No code removes accounts, so the model assumes every report's creator has one.
- `generateIssueId` uses `Math.random` and a counter whose value it discards. The issue id is an input, and uniqueness is enforced only by the save, as in the schema.
- Token signing and verification (`authController.js`, `authMiddleware.js`) and the `/api/auth` router are left out. The caller is a given id and role, and a request without a token has no caller.
- `getMyReports` and `getReportById` are left out. They only read one report or the caller's reports; the routing model still shows that `/my` is never taken for an id.
- The `search` parameter of `getReports` is left out, because it is a case-insensitive regular expression on raw user input. The issue-id matcher is modelled only for inputs without regular-expression metacharacters.
- The order of the worker queues (`sort({ createdAt: -1 })`) and of the notice listings `Notices.PublicNotices`, `Notices.WorkerNotices` and `Notices.AllNotices` (newest first, noticeController.js:96, 112, 127) is left out: those listings are sets of ids. `getReports` is a set too, except that which reports its default first page holds (the newest twelve) is modelled, because it decides what the authority tabs show. Only the comment listing and the location statistics are modelled as ordered sequences.
- `parseInt`'s reading of the page and limit text is not modelled: they are given already read, as a number or NaN.
- `populate` and `select` projections are left out. Listings return ids, not the joined user documents.
- Concurrency is left out: each handler is one atomic step. Nothing is claimed about interleaved requests, such as two racing assignments.
- Mongoose validation is modelled only for what these handlers can break: required fields, enum values and the unique issue id. The exact text of Mongoose's error messages is not modelled.
- A failed fetch on the client (the `catch` branches that empty a list, or show a toast with the server's error) is left out, and so are toast timers, loading and `creating` flags, and confirmation dialogs.
- `handleDownloadPdf`'s DOM work (adding, clicking and removing a link) is modelled only as the download it starts. The client's file name (`<title>.pdf`) and the server's `Content-Disposition` name (`notice-<id>.pdf`) are modelled separately, and the browser's choice between them is not.
- The authority notice page fetches the full list once per load; the page number kept across a re-fetch is modelled (`NoticePages.Pager.Refresh`), but the fetching itself is not.
- The percentages with `Math.round` on the analytics pages are left out. The backend rejection rate is a `real`, not an IEEE double.
- Presentation-only files are not part of this model: navigation, maps, carousels, toasts, badges, the client route guards, contexts, and the report form and view pages.
- `errorMiddleware.js` is modelled only as "an uncaught error becomes a server error (500)". Its stack trace in development is not modelled.
- Ids are assumed to be well-formed ObjectIds. A malformed id given to `findById` (reportController.js:239, 291, 296, 334, 381; workerController.js:67, 111; commentController.js:15, 39; noticeController.js:161, 174, 190) makes Mongoose throw a cast error, which is answered 500; the model answers as for an unknown id (404). A malformed `parentComment` likewise makes the comment's save fail with 500.
- Express matches paths case-insensitively by default (`/api/Reports/MY` reaches the same handler as `/api/reports/my`); the routing model compares path segments exactly.
- Express's non-strict routing also lets a path end in a slash (`/api/reports/my/` reaches `getMyReports`); the routing model splits such a path into segments ending in an empty one, which no route matches.
- A file sent under a field name other than the one the upload step expects makes multer fail with `LIMIT_UNEXPECTED_FILE`: on the report routes that error reaches the error middleware (500), and on notice creation `handleMulterError` answers 400 `Unexpected field` (noticeRoutes.js:18-29). The upload models take the expected field's file or none (`Option`), so a file under another name is not represented.
- The role middleware's own status code for a wrong role is not part of this model. A refused role is `RoleDenied`, and no number is claimed for it.
- Analytics.LocationStats: the database's order among groups with equal counts is not specified, so only the order of the counts and the groups' contents are promised, not which of several equal groups makes the top twenty.
- Comments.GetComments: newest first is stated on the creation times only; the order among comments with equal creation times is not promised.

## Findings

| source | as written | input that shows it | evidently intended | confidence | as-written member | corrected member |
|---|---|---|---|---|---|---|
| backend/controllers/noticeController.js:70-77 | a worker notice mails the addresses of active `Worker` documents, but the `Worker` schema has no e-mail field, so the list of addresses is empty | any notice with audience `worker` while active worker accounts exist | mail the active user accounts whose role is `worker`, as the public branch does for citizens | not executed | Notices.WorkerNoticeReachesNobody | Notices.Recipients |
| frontend/src/pages/dashboards/AuthorityReportManagement.jsx:242-244 | the priority select offers `normal`, `high` and `urgent`; the schema accepts only `low`, `medium` and `high` | Manage on a pending report (pre-filled with its stored priority, `low`), choose `approved` and pick `Normal` or `Urgent` in the select | offer the schema's priorities, so every enabled update that does not ask for `completed` succeeds | not executed | ReportManagement.OfferedPriorityRefused | ReportManagement.OfferedPriorityAccepted |
| frontend/src/utils/pdfHelper.js:5 | `.replace('/api', '')` removes the first `/api` in the address, not the trailing one | API base `https://api.example.com/api` gives `https:/.example.com/api` | remove only the trailing `/api` | not executed | PdfHelper.BaseAsWrittenMangles, PdfHelper.ViewUrlMangled | PdfHelper.BackendBase, PdfHelper.IntendedViewUrl |
