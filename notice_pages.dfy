/** The three notice pages of the frontend
    (frontend/src/pages/dashboards/AuthorityNotice.jsx,
    frontend/src/pages/NoticePage.jsx, frontend/src/pages/dashboards/WorkerNotice.jsx):
    their shared pagination, the audience each row displays, and the
    authority's creation form with its file and title checks. */
module NoticePages {
  import opened Common
  import NoticeModel
  import Text
  import Uploads
  import Notices

  /** `itemsPerPage` of all three pages. */
  const ItemsPerPage: nat := 5

  /** `Math.max(1, Math.ceil(n / itemsPerPage))`: the fewest pages of five
      that hold `n` notices, and at least one page. */
  function TotalPages(n: nat): (t: nat)
    ensures t >= 1
    ensures n <= t * ItemsPerPage
    ensures t == 1 || (t - 1) * ItemsPerPage < n
    ensures n == 0 ==> t == 1
  {
    var ceil := (n + ItemsPerPage - 1) / ItemsPerPage;
    if ceil < 1 then 1 else ceil
  }

  /** Where Array.prototype.slice puts a bound: a negative bound counts from
      the end, and every bound is clamped to [0, n]. */
  function SliceBound(k: int, n: nat): (b: nat)
    ensures b <= n
    ensures 0 <= k <= n ==> b == k
    ensures k > n ==> b == n
  {
    if k < 0 then (if n + k < 0 then 0 else n + k)
    else if k > n then n
    else k
  }

  /** Array.prototype.slice(begin, end). */
  function Slice<T>(s: seq<T>, begin: int, end: int): (r: seq<T>)
    ensures |r| <= |s|
    ensures SliceBound(begin, |s|) < SliceBound(end, |s|) ==> r == s[SliceBound(begin, |s|)..SliceBound(end, |s|)]
    ensures SliceBound(begin, |s|) >= SliceBound(end, |s|) ==> r == []
  {
    var i, j := SliceBound(begin, |s|), SliceBound(end, |s|);
    if i < j then s[i..j] else []
  }

  /** The notices page `page` shows: `slice((page - 1) * 5, page * 5)`. */
  function PageItems<T>(items: seq<T>, page: int): seq<T>
  {
    Slice(items, (page - 1) * ItemsPerPage, page * ItemsPerPage)
  }

  /** The serial number in the first column of row `index` on page `page`. */
  function SerialNumber(page: int, index: int): int
  {
    (page - 1) * ItemsPerPage + index + 1
  }

  /** A page from 1 on shows at most five notices, in list order, starting at
      notice (page - 1) * 5; the serial number of each row is its position in
      the whole list, counted from 1. */
  lemma PageContents<T>(items: seq<T>, page: int)
    requires page >= 1
    ensures |PageItems(items, page)| <= ItemsPerPage
    ensures forall k :: 0 <= k < |PageItems(items, page)| ==>
      var i := (page - 1) * ItemsPerPage + k;
      0 <= i < |items| && PageItems(items, page)[k] == items[i] && SerialNumber(page, k) == i + 1
  {
  }

  /** A page within [1, totalPages] of a non-empty list shows at least one
      notice; a page past totalPages shows none. */
  lemma PageEmptiness<T>(items: seq<T>, page: int)
    requires page >= 1
    ensures |items| > 0 && page <= TotalPages(|items|) ==> |PageItems(items, page)| > 0
    ensures page > TotalPages(|items|) ==> PageItems(items, page) == []
  {
    var t := TotalPages(|items|);
    if page > t {
      assert (page - 1) * ItemsPerPage >= t * ItemsPerPage;
    } else if |items| > 0 {
      assert (page - 1) * ItemsPerPage <= (t - 1) * ItemsPerPage;
    }
  }

  /** Every notice is on exactly one page within range: notice i is row
      i % 5 of page i / 5 + 1, numbered i + 1. */
  lemma EveryNoticeOnItsPage<T>(items: seq<T>, i: int)
    requires 0 <= i < |items|
    ensures
      var page, row := i / ItemsPerPage + 1, i % ItemsPerPage;
      && 1 <= page <= TotalPages(|items|)
      && row < |PageItems(items, page)| && PageItems(items, page)[row] == items[i]
      && SerialNumber(page, row) == i + 1
  {
    var page, row := i / ItemsPerPage + 1, i % ItemsPerPage;
    assert (page - 1) * ItemsPerPage + row == i;
    PageContents(items, page);
  }

  /** The list and the current page of a notice page. */
  class Pager<T> {
    var items: seq<T>
    var currentPage: int

    /** Every way the page changes keeps it at 1 or above. */
    ghost predicate Valid()
      reads this
    {
      currentPage >= 1
    }

    /** The page is one of the pages the list has. */
    predicate InRange()
      reads this
    {
      1 <= currentPage <= TotalPages(|items|)
    }

    /** `paginatedNotices`. */
    function Shown(): seq<T>
      reads this
    {
      PageItems(items, currentPage)
    }

    /** `useState(1)` and an empty list before the first fetch. */
    constructor ()
      ensures Valid() && InRange()
      ensures items == [] && currentPage == 1
    {
      items := [];
      currentPage := 1;
    }

    /** A load of the list: the fetched notices, and the page set back to 1
        (loadNotices on the public and worker pages; opening the list tab on
        the authority page). */
    method Load(fetched: seq<T>)
      modifies this
      ensures Valid() && InRange()
      ensures items == fetched && currentPage == 1
      ensures |fetched| <= ItemsPerPage ==> Shown() == fetched
      ensures |fetched| > ItemsPerPage ==> Shown() == fetched[..ItemsPerPage]
    {
      items := fetched;
      currentPage := 1;
    }

    /** The authority page's re-fetch after a create or a delete: the page
        number is kept, so it can end up past the last page. */
    method Refresh(fetched: seq<T>)
      requires Valid()
      modifies this
      ensures Valid()
      ensures items == fetched && currentPage == old(currentPage)
    {
      items := fetched;
    }

    /** handlePageChange: a page outside [1, totalPages] is ignored. */
    method ChangePage(page: int)
      requires Valid()
      modifies this
      ensures Valid()
      ensures items == old(items)
      ensures currentPage == if 1 <= page <= TotalPages(|items|) then page else old(currentPage)
      ensures old(InRange()) ==> InRange()
    {
      if page < 1 || page > TotalPages(|items|) {
        return;
      }
      currentPage := page;
    }
  }

  /** After a re-fetch shrinks the list below the current page, the authority
      page shows an empty table although notices exist. */
  lemma StalePageShowsNothing<T>(items: seq<T>, page: int)
    requires page > TotalPages(|items|)
    ensures PageItems(items, page) == []
  {
    PageEmptiness(items, page);
  }

  /** The audience column of the public page: `audience || type || 'public'`. */
  function PublicPageAudience(audience: string, noticeType: string): (shown: string)
    ensures shown != ""
    ensures audience != "" ==> shown == audience
    ensures audience == "" ==> shown == if noticeType != "" then noticeType else "public"
  {
    if audience != "" then audience else if noticeType != "" then noticeType else "public"
  }

  /** The audience column of the worker page: `audience || 'worker'`. */
  function WorkerPageAudience(audience: string): (shown: string)
    ensures shown != ""
    ensures shown == if audience != "" then audience else "worker"
  {
    if audience != "" then audience else "worker"
  }

  /** A stored notice always carries its audience, so neither fallback ever
      shows for it: both columns display the stored audience. */
  lemma StoredAudienceShown(n: NoticeModel.Notice, noticeType: string)
    ensures PublicPageAudience(NoticeModel.AudienceName(n.audience), noticeType) == NoticeModel.AudienceName(n.audience)
    ensures WorkerPageAudience(NoticeModel.AudienceName(n.audience)) == NoticeModel.AudienceName(n.audience)
  {
    match n.audience
    case PublicAudience =>
    case WorkerAudience =>
  }

  /** The largest PDF the form accepts: 1048576 bytes. */
  const MaxPdfSize: nat := 1048576

  /** A file the form keeps: a PDF of at most 1 MiB. */
  predicate Acceptable(f: Uploads.File)
  {
    f.mimetype == "application/pdf" && f.size <= MaxPdfSize
  }

  /** The multipart body handleCreateNotice sends. */
  datatype NoticeRequest = NoticeRequest(title: string, description: string, audience: string, pdfFile: Option<Uploads.File>)

  /** The creation form of the authority page. `inputFile` is what the file
      input holds; `pdfFile` the file the form will send. */
  class CreateForm {
    var title: string
    var description: string
    var audience: string
    var pdfFile: Option<Uploads.File>
    var inputFile: Option<Uploads.File>

    /** The audience is one of the select's two options, and a kept file is
        an acceptable PDF. */
    ghost predicate Valid()
      reads this
    {
      && (audience == "public" || audience == "worker")
      && (pdfFile.Some? ==> Acceptable(pdfFile.value))
    }

    /** The empty form, audience 'public'. */
    constructor ()
      ensures Valid()
      ensures title == "" && description == "" && audience == "public" && pdfFile.None? && inputFile.None?
    {
      title, description, audience := "", "", "public";
      pdfFile, inputFile := None, None;
    }

    /** handleFormChange on the title or description field. */
    method Edit(newTitle: string, newDescription: string)
      requires Valid()
      modifies this
      ensures Valid()
      ensures title == newTitle && description == newDescription
      ensures audience == old(audience) && pdfFile == old(pdfFile) && inputFile == old(inputFile)
    {
      title, description := newTitle, newDescription;
    }

    /** handleFormChange on the audience select. */
    method ChooseAudience(a: NoticeModel.Audience)
      requires Valid()
      modifies this
      ensures Valid()
      ensures audience == NoticeModel.AudienceName(a)
      ensures title == old(title) && description == old(description)
      ensures pdfFile == old(pdfFile) && inputFile == old(inputFile)
    {
      audience := NoticeModel.AudienceName(a);
    }

    /** handleFileChange: no file clears the choice; a non-PDF or a file over
        1048576 bytes is refused with a message and the input is cleared,
        while the file kept before stays; any other file is kept. */
    method SelectFile(chosen: Option<Uploads.File>) returns (error: Option<string>)
      requires Valid()
      modifies this
      ensures Valid()
      ensures title == old(title) && description == old(description) && audience == old(audience)
      ensures chosen.None? ==> error.None? && pdfFile.None? && inputFile.None?
      ensures chosen.Some? && chosen.value.mimetype != "application/pdf" ==>
        error == Some("Only PDF files are allowed") && pdfFile == old(pdfFile) && inputFile.None?
      ensures chosen.Some? && chosen.value.mimetype == "application/pdf" && chosen.value.size > MaxPdfSize ==>
        error == Some("PDF file size must be less than 1MB") && pdfFile == old(pdfFile) && inputFile.None?
      ensures chosen.Some? && Acceptable(chosen.value) ==> error.None? && pdfFile == chosen && inputFile == chosen
    {
      inputFile := chosen;
      if chosen.None? {
        pdfFile := None;
        return None;
      }
      var file := chosen.value;
      if file.mimetype != "application/pdf" {
        inputFile := None;
        return Some("Only PDF files are allowed");
      }
      if file.size > 1048576 {
        inputFile := None;
        return Some("PDF file size must be less than 1MB");
      }
      pdfFile := chosen;
      error := None;
    }

    /** handleCreateNotice up to the request: a title that is blank after
        trimming sends nothing; otherwise the form's fields are sent as they
        are, the file only when one is kept. */
    method Submit() returns (request: Option<NoticeRequest>)
      ensures request.None? <==> Text.Trim(title) == ""
      ensures request.Some? ==> request.value == NoticeRequest(title, description, audience, pdfFile)
    {
      if Text.Trim(title) == "" {
        return None;
      }
      request := Some(NoticeRequest(title, description, audience, pdfFile));
    }

    /** The reset after a successful create. */
    method Reset()
      modifies this
      ensures Valid()
      ensures title == "" && description == "" && audience == "public" && pdfFile.None? && inputFile.None?
    {
      title, description, audience := "", "", "public";
      pdfFile, inputFile := None, None;
    }
  }

  /** The form's file rules are exactly the notice upload step's: a file the
      form keeps passes the server's filter and size limit, and a file the
      form refuses would be refused there too. */
  lemma FormMatchesUploadStep(f: Uploads.File)
    ensures Acceptable(f) <==> Uploads.NoticeUpload(Some(f)).None?
  {
  }

  /** A request the form sends, by an authority whose id is known, creates
      the notice whenever the media store stores its file: the form has
      already done every check the route and the handler make. */
  lemma SentRequestIsCreated(notices: Notices.Board, caller: Caller, newId: Id, request: NoticeRequest,
                             uploaded: Option<Url>, now: int)
    requires newId !in notices
    requires caller.role == Authority && caller.id != ""
    requires Text.Trim(request.title) != ""
    requires request.audience == "public" || request.audience == "worker"
    requires request.pdfFile.Some? ==> Acceptable(request.pdfFile.value) && uploaded.Some?
    ensures Notices.PostNotice(notices, caller, newId, request.title, request.description, request.audience,
                               request.pdfFile, uploaded, now).response == Created(newId)
  {
  }
}
