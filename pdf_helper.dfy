/** The frontend's PDF helper (frontend/src/utils/pdfHelper.js): which
    attachment a notice has, the backend addresses of its view and download,
    the download's file name, and what the View and Download buttons do. */
module PdfHelper {
  import opened Common
  import Text
  import NoticeModel
  import Notices
  import Routes

  /** A notice as the pages receive it. A field the JSON lacks is "" (falsy
      like undefined); `pdf` and `attachmentUrl` are older names the helper
      also accepts. */
  datatype ClientNotice = ClientNotice(id: Id, title: string, pdfUrl: string, pdf: string, attachmentUrl: string)

  /** getPdfUrl: the first of pdfUrl, pdf, attachmentUrl that is set, else ''. */
  function GetPdfUrl(n: ClientNotice): (url: string)
    ensures url == "" <==> n.pdfUrl == "" && n.pdf == "" && n.attachmentUrl == ""
    ensures n.pdfUrl != "" ==> url == n.pdfUrl
    ensures n.pdfUrl == "" && n.pdf != "" ==> url == n.pdf
    ensures n.pdfUrl == "" && n.pdf == "" ==> url == n.attachmentUrl
  {
    if n.pdfUrl != "" then n.pdfUrl else if n.pdf != "" then n.pdf else n.attachmentUrl
  }

  /** The API base used when none is configured. */
  const DefaultApiBase: string := "http://localhost:5000/api"

  /** The configured API base (VITE_API_BASE_URL), or the default when unset. */
  function ApiBaseUrl(configured: string): (u: string)
    ensures u != ""
    ensures configured != "" ==> u == configured
  {
    if configured != "" then configured else DefaultApiBase
  }

  /** getBackendBaseUrl as written: `.replace('/api', '')` removes the FIRST
      "/api" in the address, wherever it is. */
  function BackendBaseAsWritten(configured: string): (base: string)
    ensures (forall j :: 0 <= j ==> !Text.OccursAt(ApiBaseUrl(configured), "/api", j)) ==> base == ApiBaseUrl(configured)
    ensures forall i ::
      (Text.OccursAt(ApiBaseUrl(configured), "/api", i)
       && forall j :: 0 <= j < i ==> !Text.OccursAt(ApiBaseUrl(configured), "/api", j))
      ==> base == ApiBaseUrl(configured)[..i] + ApiBaseUrl(configured)[i + 4..]
  {
    Text.ReplaceFirst(ApiBaseUrl(configured), "/api", "")
  }

  /** Removing the first "/api" of `p + "/api" + rest` when `p` holds none. */
  lemma RemovesFirstApi(p: string, rest: string)
    requires forall j :: 0 <= j < |p| ==> !Text.OccursAt(p + "/api" + rest, "/api", j)
    ensures Text.ReplaceFirst(p + "/api" + rest, "/api", "") == p + rest
  {
    var s := p + "/api" + rest;
    assert s[|p|..|p| + 4] == "/api";
    assert Text.OccursAt(s, "/api", |p|);
    var i := Text.IndexOf(s, "/api");
    assert i == |p|;
    assert s[..i] == p && s[i + 4..] == rest;
  }

  /** The mangled address: with an API host whose name starts with "api."
      (https://api.example.com/api, say), the "/api" removed is the one
      inside "//api.", not the trailing one, so the scheme loses a slash and
      the suffix stays. */
  lemma BaseAsWrittenMangles(host: string)
    ensures BackendBaseAsWritten("https://api" + host) == "https:/" + host
  {
    var p := "https:/";
    var s := p + "/api" + host;
    assert "https://api" + host == s;
    forall j | 0 <= j < |p|
      ensures !Text.OccursAt(s, "/api", j)
    {
      if j < 6 {
        assert s[j..j + 4][0] == s[j] == p[j] != '/';
      } else {
        assert s[j..j + 4][1] == s[7] == '/';
      }
    }
    RemovesFirstApi(p, host);
  }

  /** getBackendBaseUrl as its comment describes it: the base without its
      trailing "/api"; an address without that suffix is kept. */
  function BackendBase(configured: string): (base: string)
    ensures
      var u := ApiBaseUrl(configured);
      if |u| >= 4 && u[|u| - 4..] == "/api" then base + "/api" == u else base == u
  {
    var u := ApiBaseUrl(configured);
    if |u| >= 4 && u[|u| - 4..] == "/api" then u[..|u| - 4] else u
  }

  /** Removing the first occurrence of a pattern that ends the text. */
  lemma RemovesTrailing(u: string, pattern: string)
    requires |u| >= |pattern| && Text.IndexOf(u, pattern) == |u| - |pattern|
    ensures u[|u| - |pattern|..] == pattern
    ensures Text.ReplaceFirst(u, pattern, "") == u[..|u| - |pattern|]
  {
    var i := |u| - |pattern|;
    assert Text.OccursAt(u, pattern, i);
    assert u[i..] == u[i..i + |pattern|];
    assert u[i + |pattern|..] == [];
    assert u[..i] + "" + [] == u[..i];
  }

  /** Where the trailing "/api" is the first one, as in the default, the
      code as written and the intended base agree. */
  lemma AsWrittenAgreesWhenSuffixIsFirst(configured: string)
    requires |ApiBaseUrl(configured)| >= 4
    requires Text.IndexOf(ApiBaseUrl(configured), "/api") == |ApiBaseUrl(configured)| - 4
    ensures BackendBaseAsWritten(configured) == BackendBase(configured)
  {
    RemovesTrailing(ApiBaseUrl(configured), "/api");
  }

  /** With nothing configured, the base is the local server. */
  lemma DefaultBackendBase()
    ensures BackendBase("") == "http://localhost:5000"
  {
    var u := DefaultApiBase;
    assert |u| == 25;
    assert u[21..] == "/api";
    assert u[..21] == "http://localhost:5000";
  }

  /** With nothing configured, the code as written also gives the local
      server: the default's only "/api" is its suffix. */
  lemma DefaultBaseAsWritten()
    ensures BackendBaseAsWritten("") == "http://localhost:5000"
    ensures BackendBaseAsWritten("") == BackendBase("")
  {
    var p := "http://localhost:5000";
    var s := p + "/api" + "";
    assert DefaultApiBase == s;
    forall j | 0 <= j < |p|
      ensures !Text.OccursAt(s, "/api", j)
    {
      if j == 5 || j == 6 {
        assert s[j..j + 4][1] == s[j + 1] != 'a';
      } else {
        assert s[j..j + 4][0] == s[j] == p[j] != '/';
      }
    }
    RemovesFirstApi(p, "");
    assert p + "" == p;
    DefaultBackendBase();
  }

  /** The two request paths, as segments below the base. */
  function ViewPath(id: Id): seq<string>
  {
    ["notices", id + ".pdf"]
  }

  function DownloadPath(id: Id): seq<string>
  {
    ["notices", id, "download"]
  }

  /** A base followed by '/' and joined segments. */
  lemma JoinedUnder(base: string, a: string, b: string, c: string)
    ensures base + "/" + Text.Join([a, b], '/') == base + "/" + a + "/" + b
    ensures base + "/" + Text.Join([a, b, c], '/') == base + "/" + a + "/" + b + "/" + c
  {
    assert [a, b][1..] == [b];
    assert [b, c][1..] == [c];
    assert Text.Join([b, c], '/') == b + "/" + c;
    assert [a, b, c][1..] == [b, c];
    assert Text.Join([a, b, c], '/') == a + "/" + (b + "/" + c);
  }

  /** The view address below a base: the base, then the view path's
      segments joined by '/'. */
  function ViewAt(base: string, id: Id): (url: string)
    ensures url == base + "/" + Text.Join(ViewPath(id), '/')
    ensures url == base + "/notices/" + id + ".pdf"
  {
    JoinedUnder(base, "notices", id + ".pdf", "");
    base + "/" + "notices" + "/" + (id + ".pdf")
  }

  /** The download address below a base. */
  function DownloadAt(base: string, id: Id): (url: string)
    ensures url == base + "/" + Text.Join(DownloadPath(id), '/')
    ensures url == base + "/notices/" + id + "/download"
  {
    JoinedUnder(base, "notices", id, "download");
    base + "/" + "notices" + "/" + id + "/" + "download"
  }

  /** getInternalViewUrl as written: below the base from getBackendBaseUrl
      as written. */
  function ViewUrl(configured: string, n: ClientNotice): (url: string)
    ensures url == BackendBaseAsWritten(configured) + "/notices/" + n.id + ".pdf"
  {
    ViewAt(BackendBaseAsWritten(configured), n.id)
  }

  /** getInternalDownloadUrl as written: below the same base. */
  function DownloadUrl(configured: string, n: ClientNotice): (url: string)
    ensures url == BackendBaseAsWritten(configured) + "/notices/" + n.id + "/download"
  {
    DownloadAt(BackendBaseAsWritten(configured), n.id)
  }

  /** The view address on the intended base. */
  function IntendedViewUrl(configured: string, n: ClientNotice): (url: string)
    ensures url == BackendBase(configured) + "/notices/" + n.id + ".pdf"
  {
    ViewAt(BackendBase(configured), n.id)
  }

  /** The download address on the intended base. */
  function IntendedDownloadUrl(configured: string, n: ClientNotice): (url: string)
    ensures url == BackendBase(configured) + "/notices/" + n.id + "/download"
  {
    DownloadAt(BackendBase(configured), n.id)
  }

  /** Where the configured address's trailing "/api" is its first one (the
      default is such an address), the helper's addresses are the intended ones. */
  lemma UrlsAgreeWhenSuffixIsFirst(configured: string, n: ClientNotice)
    requires |ApiBaseUrl(configured)| >= 4
    requires Text.IndexOf(ApiBaseUrl(configured), "/api") == |ApiBaseUrl(configured)| - 4
    ensures ViewUrl(configured, n) == IntendedViewUrl(configured, n)
    ensures DownloadUrl(configured, n) == IntendedDownloadUrl(configured, n)
  {
    AsWrittenAgreesWhenSuffixIsFirst(configured);
  }

  /** With an API host whose name starts with "api." the View button opens
      an address whose scheme has lost a slash and whose path still holds
      "/api": https://api.example.com/api gives
      https:/.example.com/api/notices/<id>.pdf. */
  lemma ViewUrlMangled(host: string, n: ClientNotice)
    ensures ViewUrl("https://api" + host, n) == "https:/" + host + "/notices/" + n.id + ".pdf"
    ensures DownloadUrl("https://api" + host, n) == "https:/" + host + "/notices/" + n.id + "/download"
  {
    BaseAsWrittenMangles(host);
  }

  /** The two paths reach the backend's PDF view and download handlers. */
  lemma PathsReachHandlers(id: Id)
    requires id != ""
    ensures Routes.ResolveRequest(Routes.Get, ViewPath(id)) == Some(Routes.ViewNoticePdf)
    ensures Routes.ResolveRequest(Routes.Get, DownloadPath(id)) == Some(Routes.DownloadNoticePdf)
  {
    Routes.PdfViewReachable(id);
    Routes.PdfDownloadReachable(id);
  }

  /** The download's file name: the title with ".pdf", or "notice.pdf". */
  function DownloadName(title: string): (name: string)
    ensures title != "" ==> name == title + ".pdf"
    ensures title == "" ==> name == "notice.pdf"
    ensures |name| > 4 && name[|name| - 4..] == ".pdf"
  {
    if title != "" then title + ".pdf" else "notice.pdf"
  }

  /** What a button does: only a message (when a toast is at hand), open
      the view in a new tab, or download the file under a name. */
  datatype PdfAction = NoAttachment(toast: Option<string>) | OpenView(url: string) | StartDownload(url: string, filename: string)

  const NoAttachmentMessage := "No attachment available"

  /** handleViewPdf. */
  function HandleViewPdf(configured: string, n: ClientNotice, hasToast: bool): (a: PdfAction)
    ensures a.NoAttachment? <==> GetPdfUrl(n) == ""
    ensures a.NoAttachment? ==> a.toast == if hasToast then Some(NoAttachmentMessage) else None
    ensures a.OpenView? ==> a.url == ViewUrl(configured, n)
    ensures !a.StartDownload?
  {
    if GetPdfUrl(n) == "" then NoAttachment(if hasToast then Some(NoAttachmentMessage) else None)
    else OpenView(ViewUrl(configured, n))
  }

  /** handleDownloadPdf (the link element it adds, clicks and removes is the
      download). */
  function HandleDownloadPdf(configured: string, n: ClientNotice, hasToast: bool): (a: PdfAction)
    ensures a.NoAttachment? <==> GetPdfUrl(n) == ""
    ensures a.NoAttachment? ==> a.toast == if hasToast then Some(NoAttachmentMessage) else None
    ensures a.StartDownload? ==> a.url == DownloadUrl(configured, n) && a.filename == DownloadName(n.title)
    ensures !a.OpenView?
  {
    if GetPdfUrl(n) == "" then NoAttachment(if hasToast then Some(NoAttachmentMessage) else None)
    else StartDownload(DownloadUrl(configured, n), DownloadName(n.title))
  }

  /** A stored notice as the listings send it: its pdfUrl or nothing. */
  function FromStored(id: Id, n: NoticeModel.Notice): (c: ClientNotice)
    ensures c.id == id && c.title == n.title
  {
    ClientNotice(id, n.title, if n.pdfUrl.Some? then n.pdfUrl.value else "", "", "")
  }

  /** The buttons offer a PDF exactly when the backend has one to stream:
      for a stored notice the helper finds an attachment iff the view lookup
      answers with the stream, and it is the same address. */
  lemma ButtonsMatchBackend(notices: Notices.Board, id: Id)
    requires id in notices
    ensures GetPdfUrl(FromStored(id, notices[id])) != "" <==> Notices.ViewPdf(notices, id).Stream?
    ensures GetPdfUrl(FromStored(id, notices[id])) != "" ==>
      GetPdfUrl(FromStored(id, notices[id])) == Notices.ViewPdf(notices, id).pdfUrl
  {
  }
}
