/**
 * `AuditSession` (src/audit_folder.py): the command-line audit. It parses the
 * folder link, names the intern after the folder, lists the receipts, and for
 * each one runs the analyser, overrides the status when the ledger knows the
 * reference, records one row and prints one line; then it prints the summary
 * read back from the recorder.
 */
module AuditFolder {
  import opened Options
  import opened PyStr
  import opened DriveTree
  import DriveManager
  import opened Sessions

  // ---------------------------------------------------------------------------
  // extract_folder_id
  // ---------------------------------------------------------------------------

  /** `extract_folder_id`: `folders/<id>`, then `id=<id>`, else the input unchanged. */
  function ExtractFolderId(url: string): string {
    var byFolders := DriveManager.SearchMarker(url, "folders/");
    if byFolders.Some? then byFolders.value
    else
      var byParam := DriveManager.SearchMarker(url, "id=");
      if byParam.Some? then byParam.value else url
  }

  /** The two patterns in order, with the leftmost match and the maximal id
      run; with no match the link itself is returned, never `None`. */
  lemma ExtractFolderIdSpec(url: string)
    ensures (exists i :: DriveManager.MarkerMatchAt(url, "folders/", i)) ==>
      exists i :: DriveManager.LeftmostMarkerMatch(url, "folders/", i) && ExtractFolderId(url) == DriveManager.IdRun(url[i + 8..])
    ensures (forall i :: !DriveManager.MarkerMatchAt(url, "folders/", i)) && (exists i :: DriveManager.MarkerMatchAt(url, "id=", i)) ==>
      exists i :: DriveManager.LeftmostMarkerMatch(url, "id=", i) && ExtractFolderId(url) == DriveManager.IdRun(url[i + 3..])
    ensures (forall i :: !DriveManager.MarkerMatchAt(url, "folders/", i)) && (forall i :: !DriveManager.MarkerMatchAt(url, "id=", i)) ==>
      ExtractFolderId(url) == url
    ensures ExtractFolderId(url) == url
         || (ExtractFolderId(url) != [] && forall k :: 0 <= k < |ExtractFolderId(url)| ==> DriveManager.IsIdChar(ExtractFolderId(url)[k]))
  {
    var byFolders := DriveManager.SearchMarker(url, "folders/");
    if byFolders.Some? {
      var i :| DriveManager.LeftmostMarkerMatch(url, "folders/", i) && byFolders.value == DriveManager.IdRun(url[i + |"folders/"|..]);
      assert ExtractFolderId(url) == DriveManager.IdRun(url[i + 8..]);
    } else {
      var byParam := DriveManager.SearchMarker(url, "id=");
      if byParam.Some? {
        var i :| DriveManager.LeftmostMarkerMatch(url, "id=", i) && byParam.value == DriveManager.IdRun(url[i + |"id="|..]);
        assert ExtractFolderId(url) == DriveManager.IdRun(url[i + 3..]);
      }
    }
  }

  /** Where `DriveManager.extract_folder_id` finds an id through one of its
      first two patterns, this parser finds the same id. */
  lemma ExtractorsAgreeOnMarkers(url: string)
    requires DriveManager.SearchMarker(url, "folders/").Some? || DriveManager.SearchMarker(url, "id=").Some?
    ensures DriveManager.ExtractFolderId(url) == Some(ExtractFolderId(url))
  {
  }

  // ---------------------------------------------------------------------------
  // _fetch_files_recursive
  // ---------------------------------------------------------------------------

  /** `any(m in mimeType for m in ['image/', 'pdf'])`: a substring test. */
  predicate AuditKeeps(mime: string) {
    Contains(mime, "image/") || Contains(mime, "pdf")
  }

  /** What `_fetch_files_recursive` contributes for one entry: folders are
      always entered, other items are kept unchanged when the substring test holds. */
  function Fetched(e: Entry): (r: seq<FileItem>)
    ensures forall it :: it in r ==> AuditKeeps(it.mime)
    decreases e
  {
    if e.mimeType == FolderMime then FetchedListing(e.children)
    else if AuditKeeps(e.mimeType) then [ItemOf(e)]
    else []
  }

  /** What `_fetch_files_recursive` returns for a folder. */
  function FetchedListing(l: Listing): (r: seq<FileItem>)
    ensures forall it :: it in r ==> AuditKeeps(it.mime)
    decreases l
  {
    FetchedPages(l, Served(l))
  }

  function FetchedPages(l: Listing, n: nat): (r: seq<FileItem>)
    requires n <= |l.pages|
    ensures forall it :: it in r ==> AuditKeeps(it.mime)
    decreases l, n
  {
    if n == 0 then []
    else
      var p := l.pages[n - 1];
      assert p in l.pages;
      FetchedPages(l, n - 1) + FetchedEntries(p, |p.entries|)
  }

  function FetchedEntries(p: Page, n: nat): (r: seq<FileItem>)
    requires n <= |p.entries|
    ensures forall it :: it in r ==> AuditKeeps(it.mime)
    decreases p, n
  {
    if n == 0 then []
    else
      assert p.entries[n - 1] in p.entries;
      FetchedEntries(p, n - 1) + Fetched(p.entries[n - 1])
  }

  /** `_fetch_files_recursive(folder_id)`: pages through the folder, entering
      every sub-folder; an exception silently ends this folder's paging. */
  method FetchFilesRecursive(l: Listing) returns (results: seq<FileItem>)
    ensures results == FetchedListing(l)
    ensures forall it :: it in results ==> AuditKeeps(it.mime)
    decreases l
  {
    results := [];
    var k := 0;
    while k < |l.pages|
      invariant k <= Served(l)
      invariant results == FetchedPages(l, k)
      decreases |l.pages| - k
    {
      if l.failsAt == Some(k) {
        // the request raises; `except Exception: pass`
        break;
      }
      var page := l.pages[k];
      assert page in l.pages;
      var j := 0;
      while j < |page.entries|
        invariant j <= |page.entries|
        invariant results == FetchedPages(l, k) + FetchedEntries(page, j)
      {
        var item := page.entries[j];
        assert item in page.entries;
        if item.mimeType == FolderMime {
          var sub := FetchFilesRecursive(item.children);
          results := results + sub;
        } else if AuditKeeps(item.mimeType) {
          results := results + [ItemOf(item)];
        }
        j := j + 1;
      }
      k := k + 1;
    }
  }

  /** The substring test keeps every one of `DriveManager`'s receipt types. */
  lemma TargetMimesAreKept()
    ensures forall m :: m in DriveManager.TargetMimes ==> AuditKeeps(m)
  {
    assert OccursAt("image/jpeg", "image/", 0);
    assert OccursAt("image/png", "image/", 0);
    assert OccursAt("application/pdf", "pdf", 12);
    assert OccursAt("image/heif", "image/", 0);
    assert OccursAt("image/heic", "image/", 0);
    assert OccursAt("image/webp", "image/", 0);
  }

  /** The substring test is looser than `TARGET_MIMES`: a GIF is kept here
      and skipped by `DriveManager.list_files`. */
  lemma GifKeptOnlyByAudit()
    ensures AuditKeeps("image/gif")
    ensures "image/gif" !in DriveManager.TargetMimes
  {
    assert OccursAt("image/gif", "image/", 0);
    assert "image/gif"[6] == 'g';
  }

  /** The items whose type is one of `TARGET_MIMES`, in order. */
  function OnlyTargets(items: seq<FileItem>): (r: seq<FileItem>) {
    if items == [] then []
    else
      var last := items[|items| - 1];
      OnlyTargets(items[..|items| - 1]) + (if last.mime in DriveManager.TargetMimes then [last] else [])
  }

  lemma {:induction false} OnlyTargetsAppend(a: seq<FileItem>, b: seq<FileItem>)
    ensures OnlyTargets(a + b) == OnlyTargets(a) + OnlyTargets(b)
    decreases |b|
  {
    if b == [] {
      assert a + b == a;
    } else {
      assert (a + b)[..|a + b| - 1] == a + b[..|b| - 1];
      OnlyTargetsAppend(a, b[..|b| - 1]);
    }
  }

  lemma {:induction false} EntryFilter(e: Entry)
    ensures DriveManager.Collected(e, true) == OnlyTargets(Fetched(e))
    decreases e
  {
    if e.mimeType == FolderMime {
      ListingFilter(e.children);
    } else {
      TargetMimesAreKept();
      assert OnlyTargets([ItemOf(e)]) == OnlyTargets([]) + (if e.mimeType in DriveManager.TargetMimes then [ItemOf(e)] else []);
    }
  }

  lemma {:induction false} ListingFilter(l: Listing)
    ensures DriveManager.CollectedListing(l, true) == OnlyTargets(FetchedListing(l))
    decreases l
  {
    PagesFilter(l, Served(l));
  }

  lemma {:induction false} PagesFilter(l: Listing, n: nat)
    requires n <= |l.pages|
    ensures DriveManager.CollectedPages(l, n, true) == OnlyTargets(FetchedPages(l, n))
    decreases l, n
  {
    if n > 0 {
      var p := l.pages[n - 1];
      assert p in l.pages;
      PagesFilter(l, n - 1);
      EntriesFilter(p, |p.entries|);
      OnlyTargetsAppend(FetchedPages(l, n - 1), FetchedEntries(p, |p.entries|));
    }
  }

  lemma {:induction false} EntriesFilter(p: Page, n: nat)
    requires n <= |p.entries|
    ensures DriveManager.CollectedEntries(p, n, true) == OnlyTargets(FetchedEntries(p, n))
    decreases p, n
  {
    if n > 0 {
      assert p.entries[n - 1] in p.entries;
      EntriesFilter(p, n - 1);
      EntryFilter(p.entries[n - 1]);
      OnlyTargetsAppend(FetchedEntries(p, n - 1), Fetched(p.entries[n - 1]));
    }
  }

  /** On the same folder tree, `DriveManager.list_files(folder_id)` returns
      exactly the items of `_fetch_files_recursive(folder_id)` whose type is
      in `TARGET_MIMES`, in the same order. */
  lemma DriveListingIsTargetFilter(l: Listing)
    ensures DriveManager.CollectedListing(l, true) == OnlyTargets(FetchedListing(l))
  {
    ListingFilter(l);
  }

  // ---------------------------------------------------------------------------
  // The per-file step of start_audit
  // ---------------------------------------------------------------------------

  /** The dictionary `brain.analyze_file` returns; `None` stands for a Python
      `None` value. The analyser itself is not part of this model. */
  datatype Analysis = Analysis(utr: Option<string>, amount: Option<real>, status: Option<string>)

  /** The status after the duplicate check: `DUPLICATE` when the reference is
      truthy and the ledger knows it, else the analyser's status. */
  function FinalStatus(data: Analysis, isDuplicate: string -> bool): Option<string> {
    if StrTruthy(data.utr) && isDuplicate(data.utr.value) then Some("DUPLICATE") else data.status
  }

  /** The intern name: the folder's `name`, or `Unknown_Intern` when the
      request raises (`None`) or the answer has no name. */
  function InternName(meta: Option<FileResource>): (who: string)
    ensures who == "Unknown_Intern" || (meta.Some? && meta.value.name == Some(who))
    ensures meta.Some? && meta.value.name.Some? ==> who == meta.value.name.value
  {
    match meta
    case None => "Unknown_Intern"
    case Some(r) => r.name.GetOr("Unknown_Intern")
  }

  // ---------------------------------------------------------------------------
  // _print_log
  // ---------------------------------------------------------------------------

  /** The terminal colours `_print_log` chooses from. */
  datatype Color = Reset | Red | Green | Yellow | Blue

  /** The ANSI escape sequence of each colour. */
  function AnsiCode(c: Color): string {
    match c
    case Reset => "\U{1B}[0m"
    case Red => "\U{1B}[91m"
    case Green => "\U{1B}[92m"
    case Yellow => "\U{1B}[93m"
    case Blue => "\U{1B}[94m"
  }

  /** The colour of a status. */
  function ColorOf(status: Option<string>): Color {
    if status == Some("SUCCESS") then Green
    else if status == Some("DUPLICATE") then Red
    else if status == Some("MANUAL_REVIEW") then Yellow
    else if status == Some("FAILED") then Blue
    else Reset
  }

  /** The colour map gives each of the four known statuses its own colour and
      every other status, `None` included, the reset colour. */
  lemma ColorMap(status: Option<string>)
    ensures ColorOf(status) == Reset <==>
      status !in {Some("SUCCESS"), Some("DUPLICATE"), Some("MANUAL_REVIEW"), Some("FAILED")}
    ensures forall s1, s2 ::
      (&& s1 in {Some("SUCCESS"), Some("DUPLICATE"), Some("MANUAL_REVIEW"), Some("FAILED")}
       && s2 in {Some("SUCCESS"), Some("DUPLICATE"), Some("MANUAL_REVIEW"), Some("FAILED")}
       && s1 != s2)
      ==> ColorOf(s1) != ColorOf(s2)
  {
  }

  /** The file name as displayed: names longer than 20 characters become their
      first 18 characters and `..`. */
  function ShortName(filename: string): (r: string)
    ensures |r| <= 20
    ensures r == filename <==> |filename| <= 20
    ensures r != filename ==> |r| == 20 && r[..18] == filename[..18] && r[18..] == ".."
  {
    if |filename| > 20 then filename[..18] + ".." else filename
  }

  /** The amount as displayed: `str(amount)`, or `"0"` for a falsy amount. */
  datatype AmountText = ZeroText | AmountOf(value: real)

  /** The fields of the line `_print_log` prints. */
  datatype LogLine = LogLine(color: Color, status: Option<string>, utr: string, amount: AmountText, fileName: string)

  /** `_print_log(status, utr, amount, filename)`. */
  function PrintLog(status: Option<string>, utr: Option<string>, amount: Option<real>, filename: string): (line: LogLine)
    ensures line.color == ColorOf(status) && line.status == status
    ensures line.utr != "" && (StrTruthy(utr) ==> line.utr == utr.value)
    ensures !StrTruthy(utr) ==> line.utr == "N/A"
    ensures line.amount.AmountOf? <==> NumTruthy(amount)
    ensures line.amount.AmountOf? ==> line.amount.value == amount.value
    ensures line.fileName == ShortName(filename)
  {
    LogLine(ColorOf(status),
            status,
            if StrTruthy(utr) then utr.value else "N/A",
            if NumTruthy(amount) then AmountOf(amount.value) else ZeroText,
            ShortName(filename))
  }

  /** `s` left-justified in a field of width `w` (`{s:<w}`). */
  function PadRight(s: string, w: nat): (r: string)
    ensures |r| == if |s| < w then w else |s|
    ensures r[..|s|] == s
    ensures forall k :: |s| <= k < |r| ==> r[k] == ' '
    decreases w - |s|
  {
    if |s| >= w then s else PadRight(s + " ", w)
  }

  /** The text of a log line; `showNumber` is Python's `str` on a number, which
      this model does not define. */
  function Render(line: LogLine, showNumber: real -> string): (text: string)
    ensures AnsiCode(line.color) <= text
    ensures |line.fileName + AnsiCode(Reset)| <= |text|
            && text[|text| - |line.fileName + AnsiCode(Reset)|..] == line.fileName + AnsiCode(Reset)
  {
    var statusText := if line.status.Some? then line.status.value else "None";
    var amountText := match line.amount case ZeroText => "0" case AmountOf(x) => showNumber(x);
    var head := AnsiCode(line.color) + "[" + statusText + "]    " + PadRight(line.utr, 15)
                + " \U{20B9}" + PadRight(amountText, 9) + " ";
    assert (head + (line.fileName + AnsiCode(Reset)))[..|AnsiCode(line.color)|] == AnsiCode(line.color);
    head + (line.fileName + AnsiCode(Reset))
  }

  // ---------------------------------------------------------------------------
  // _print_summary
  // ---------------------------------------------------------------------------

  /** `i` is the last row of the summary whose status is `SUCCESS`. */
  ghost predicate LastSuccessAt(stats: seq<StatRow>, i: int) {
    && 0 <= i < |stats| && stats[i].status == Some("SUCCESS")
    && forall j :: i < j < |stats| ==> stats[j].status != Some("SUCCESS")
  }

  /** `t` is the verified total `_print_summary` reports for `stats`: the
      amount of the (last) `SUCCESS` row, or 0 when there is none. */
  ghost predicate IsVerifiedTotal(stats: seq<StatRow>, t: real) {
    if exists i :: 0 <= i < |stats| && stats[i].status == Some("SUCCESS")
    then exists i :: LastSuccessAt(stats, i) && t == stats[i].total
    else t == 0.0
  }

  /** The total-selection loop of `_print_summary`. Formatting a `None`
      status with `{status:<15}` raises `TypeError`, which ends the summary
      (and `start_audit`) without a total: that outcome is `None`. */
  method PrintSummary(stats: seq<StatRow>) returns (totalVerified: Option<real>)
    ensures totalVerified.None? <==> exists i :: 0 <= i < |stats| && stats[i].status.None?
    ensures totalVerified.Some? ==> IsVerifiedTotal(stats, totalVerified.value)
  {
    var total := 0.0;
    ghost var last := -1;
    for i := 0 to |stats|
      invariant -1 <= last < i || (last == -1 && i == 0)
      invariant forall j :: 0 <= j < i ==> stats[j].status.Some?
      invariant last == -1 ==> total == 0.0 && forall j :: 0 <= j < i ==> stats[j].status != Some("SUCCESS")
      invariant last >= 0 ==> LastSuccessAt(stats[..i], last) && total == stats[last].total
    {
      var row := stats[i];
      if row.status.None? {
        return None;
      }
      // `total_amt if total_amt else 0`: SUM over stored amounts is never NULL,
      // and a zero sum gives the same value 0
      var amt := row.total;
      if row.status == Some("SUCCESS") {
        total := amt;
        last := i;
      }
    }
    if last >= 0 {
      assert stats[..|stats|] == stats;
      assert LastSuccessAt(stats, last);
    }
    return Some(total);
  }

  /** Read from the recorder, the verified total is the summed amount of the
      folder's `SUCCESS` rows (0 when there are none). */
  lemma VerifiedTotalIsSuccessSum(rows: seq<Row>, f: string, t: real)
    requires IsVerifiedTotal(SessionStats(rows, f), t)
    ensures t == SumStatus(FolderRows(rows, f), Some("SUCCESS"))
  {
    var fr := FolderRows(rows, f);
    var ks := Statuses(fr);
    var stats := SessionStats(rows, f);
    if exists i :: 0 <= i < |stats| && stats[i].status == Some("SUCCESS") {
      var i :| LastSuccessAt(stats, i) && t == stats[i].total;
      GroupRowsAt(ks, fr, i);
    } else {
      forall i | 0 <= i < |ks| ensures ks[i] != Some("SUCCESS") {
        GroupRowsAt(ks, fr, i);
      }
      AbsentStatus(fr, Some("SUCCESS"));
    }
  }

  /** The summary has a row with a `None` status exactly when some row of
      the folder, from this run or an earlier one, has a `NULL` status. */
  lemma SummaryHasNullStatus(rows: seq<Row>, f: string)
    ensures (exists i :: 0 <= i < |SessionStats(rows, f)| && SessionStats(rows, f)[i].status.None?)
        <==> exists x :: x in FolderRows(rows, f) && x.status.None?
  {
    var fr := FolderRows(rows, f);
    var ks := Statuses(fr);
    forall i | 0 <= i < |ks| ensures SessionStats(rows, f)[i].status == ks[i] {
      GroupRowsAt(ks, fr, i);
    }
    if exists x :: x in fr && x.status.None? {
      var x :| x in fr && x.status.None?;
      var i :| 0 <= i < |ks| && ks[i] == x.status;
      assert SessionStats(rows, f)[i].status.None?;
    }
    if exists i :: 0 <= i < |SessionStats(rows, f)| && SessionStats(rows, f)[i].status.None? {
      var i :| 0 <= i < |SessionStats(rows, f)| && SessionStats(rows, f)[i].status.None?;
      assert ks[i] in ks;
    }
  }

  // ---------------------------------------------------------------------------
  // start_audit
  // ---------------------------------------------------------------------------

  /** The row recorded for the `i`-th listed file. */
  function AuditRow(i: nat, file: FileItem, who: string, folderId: string,
                    analyze: string -> Analysis, isDuplicate: string -> bool, clock: nat -> string): Row
  {
    var data := analyze(file.id);
    NewRow(clock(i), who, folderId, file.name, data.utr, data.amount, FinalStatus(data, isDuplicate))
  }

  /** The rows recorded for `files`, one per file, in listing order. */
  function AuditRows(files: seq<FileItem>, who: string, folderId: string,
                     analyze: string -> Analysis, isDuplicate: string -> bool, clock: nat -> string): seq<Row>
  {
    if files == [] then []
    else AuditRows(files[..|files| - 1], who, folderId, analyze, isDuplicate, clock)
         + [AuditRow(|files| - 1, files[|files| - 1], who, folderId, analyze, isDuplicate, clock)]
  }

  /** The line printed for one listed file. */
  function AuditLine(file: FileItem, analyze: string -> Analysis, isDuplicate: string -> bool): LogLine {
    var data := analyze(file.id);
    PrintLog(FinalStatus(data, isDuplicate), data.utr, data.amount, file.name)
  }

  /** The lines printed for `files`, one per file, in listing order. */
  function AuditLines(files: seq<FileItem>, analyze: string -> Analysis, isDuplicate: string -> bool): seq<LogLine> {
    if files == [] then []
    else AuditLines(files[..|files| - 1], analyze, isDuplicate) + [AuditLine(files[|files| - 1], analyze, isDuplicate)]
  }

  /** Auditing one more file appends its row and its line. */
  lemma AuditStep(files: seq<FileItem>, i: nat, who: string, folderId: string,
                  analyze: string -> Analysis, isDuplicate: string -> bool, clock: nat -> string)
    requires i < |files|
    ensures AuditRows(files[..i + 1], who, folderId, analyze, isDuplicate, clock)
            == AuditRows(files[..i], who, folderId, analyze, isDuplicate, clock)
               + [AuditRow(i, files[i], who, folderId, analyze, isDuplicate, clock)]
    ensures AuditLines(files[..i + 1], analyze, isDuplicate)
            == AuditLines(files[..i], analyze, isDuplicate) + [AuditLine(files[i], analyze, isDuplicate)]
  {
    assert files[..i + 1][..i] == files[..i];
  }

  lemma {:induction false} AuditRowsLength(files: seq<FileItem>, who: string, folderId: string,
                                           analyze: string -> Analysis, isDuplicate: string -> bool, clock: nat -> string)
    ensures |AuditRows(files, who, folderId, analyze, isDuplicate, clock)| == |files|
  {
    if files != [] {
      AuditRowsLength(files[..|files| - 1], who, folderId, analyze, isDuplicate, clock);
    }
  }

  /** The `i`-th recorded row is the row of the `i`-th file. */
  lemma {:induction false} AuditRowsAt(files: seq<FileItem>, i: nat, who: string, folderId: string,
                                       analyze: string -> Analysis, isDuplicate: string -> bool, clock: nat -> string)
    requires i < |files|
    ensures |AuditRows(files, who, folderId, analyze, isDuplicate, clock)| == |files|
    ensures AuditRows(files, who, folderId, analyze, isDuplicate, clock)[i]
         == AuditRow(i, files[i], who, folderId, analyze, isDuplicate, clock)
    decreases |files|
  {
    var init := files[..|files| - 1];
    AuditRowsLength(init, who, folderId, analyze, isDuplicate, clock);
    if i < |files| - 1 {
      AuditRowsAt(init, i, who, folderId, analyze, isDuplicate, clock);
    }
  }

  /** One row per listed file, in listing order, all with the same intern name
      and folder id; the status is `DUPLICATE` exactly when the reference is
      truthy and the ledger knows it, and otherwise the analyser's. */
  lemma AuditRowsFacts(files: seq<FileItem>, who: string, folderId: string,
                                          analyze: string -> Analysis, isDuplicate: string -> bool, clock: nat -> string)
    ensures |AuditRows(files, who, folderId, analyze, isDuplicate, clock)| == |files|
    ensures forall i :: 0 <= i < |files| ==>
      var row := AuditRows(files, who, folderId, analyze, isDuplicate, clock)[i];
      var data := analyze(files[i].id);
      && row.internName == who && row.folderId == folderId
      && row.fileName == files[i].name && row.timestamp == clock(i)
      && row.utr == StoredUtr(data.utr) && row.amount == StoredAmount(data.amount)
      && (StrTruthy(data.utr) && isDuplicate(data.utr.value) ==> row.status == Some("DUPLICATE"))
      && (!(StrTruthy(data.utr) && isDuplicate(data.utr.value)) ==> row.status == data.status)
  {
    AuditRowsLength(files, who, folderId, analyze, isDuplicate, clock);
    forall i | 0 <= i < |files|
      ensures AuditRows(files, who, folderId, analyze, isDuplicate, clock)[i]
           == AuditRow(i, files[i], who, folderId, analyze, isDuplicate, clock)
    {
      AuditRowsAt(files, i, who, folderId, analyze, isDuplicate, clock);
    }
  }

  /** After an audit of `files`, the summary of the folder counts every listed
      file once, on top of the folder's rows already in the table. */
  lemma AuditSummaryCountsEveryFile(before: seq<Row>, files: seq<FileItem>, who: string, folderId: string,
                                    analyze: string -> Analysis, isDuplicate: string -> bool, clock: nat -> string)
    ensures SumCounts(SessionStats(before + AuditRows(files, who, folderId, analyze, isDuplicate, clock), folderId))
            == |FolderRows(before, folderId)| + |files|
  {
    var added := AuditRows(files, who, folderId, analyze, isDuplicate, clock);
    AuditRowsFacts(files, who, folderId, analyze, isDuplicate, clock);
    forall x | x in added ensures x.folderId == folderId {
      var i :| 0 <= i < |added| && added[i] == x;
    }
    StatsIncludeEarlierRuns(before, added, folderId);
  }

  /** The audit session; of its collaborators only the recorder keeps state
      this model tracks. */
  class AuditSession {
    /** The `SessionManager` the session writes to. */
    const recorder: SessionManager

    /** `AuditSession(...)`: opens the recorder on a database whose table
        holds `stored` (`None` when there is none yet). */
    constructor(stored: Option<seq<Row>>)
      ensures fresh(recorder)
      ensures recorder.Valid() && recorder.tableExists && recorder.rows == stored.GetOr([])
    {
      recorder := new SessionManager(stored);
    }

    /** The loop of `start_audit` over the listed files: analyse each file,
        mark a known reference as `DUPLICATE`, record the row and print the
        line. */
    method AuditFiles(files: seq<FileItem>, internName: string, folderId: string,
                      analyze: string -> Analysis, isDuplicate: string -> bool, clock: nat -> string)
      returns (lines: seq<LogLine>)
      requires recorder.Valid() && recorder.tableExists
      modifies recorder
      ensures recorder.Valid() && recorder.tableExists
      ensures recorder.rows == old(recorder.rows) + AuditRows(files, internName, folderId, analyze, isDuplicate, clock)
      ensures lines == AuditLines(files, analyze, isDuplicate)
    {
      lines := [];
      for i := 0 to |files|
        invariant recorder.Valid() && recorder.tableExists
        invariant recorder.rows == old(recorder.rows) + AuditRows(files[..i], internName, folderId, analyze, isDuplicate, clock)
        invariant lines == AuditLines(files[..i], analyze, isDuplicate)
      {
        var file := files[i];
        var data := analyze(file.id);
        if StrTruthy(data.utr) {
          if isDuplicate(data.utr.value) {
            data := data.(status := Some("DUPLICATE"));
          }
        }
        recorder.LogTransaction(clock(i), internName, folderId, file.name, data.utr, data.amount, data.status);
        lines := lines + [PrintLog(data.status, data.utr, data.amount, file.name)];
        AuditStep(files, i, internName, folderId, analyze, isDuplicate, clock);
      }
      assert files[..|files|] == files;
    }

    /** `start_audit(folder_link)`. The Drive listing of the extracted folder
        is `root`; `meta` is the answer of the name lookup (`None` when it
        raises); `analyze` and `isDuplicate` stand for the analyser and the
        loaded ledger; `clock(i)` is the time stamp of the `i`-th insert.
        Returns the printed lines and the verified total of the summary, or
        `None` when printing the summary raises on a `NULL` status. */
    method StartAudit(folderLink: string, meta: Option<FileResource>, root: Listing,
                      analyze: string -> Analysis, isDuplicate: string -> bool, clock: nat -> string)
      returns (lines: seq<LogLine>, totalVerified: Option<real>)
      requires recorder.Valid() && recorder.tableExists
      modifies recorder
      ensures recorder.Valid() && recorder.tableExists
      ensures recorder.rows == old(recorder.rows)
        + AuditRows(FetchedListing(root), InternName(meta), ExtractFolderId(folderLink), analyze, isDuplicate, clock)
      ensures lines == AuditLines(FetchedListing(root), analyze, isDuplicate)
      ensures totalVerified.None? <==> exists x :: x in FolderRows(recorder.rows, ExtractFolderId(folderLink)) && x.status.None?
      ensures totalVerified.Some? ==>
        totalVerified.value == SumStatus(FolderRows(recorder.rows, ExtractFolderId(folderLink)), Some("SUCCESS"))
    {
      var folderId := ExtractFolderId(folderLink);
      var internName := InternName(meta);
      var files := FetchFilesRecursive(root);
      lines := AuditFiles(files, internName, folderId, analyze, isDuplicate, clock);
      var stats := recorder.GetSessionStats(folderId);
      totalVerified := PrintSummary(stats);
      SummaryHasNullStatus(recorder.rows, folderId);
      if totalVerified.Some? {
        VerifiedTotalIsSuccessSum(recorder.rows, folderId, totalVerified.value);
      }
    }
  }
}
