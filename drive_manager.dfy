/**
 * `DriveManager` (src/services/drive_manager.py): parsing a Drive link into a
 * folder id, the owner fallback of the folder metadata, and the recursive,
 * paged listing of receipt files.
 */
module DriveManager {
  import opened Options
  import opened PyStr
  import opened DriveTree

  // ---------------------------------------------------------------------------
  // extract_folder_id
  // ---------------------------------------------------------------------------

  /** The regex class `[a-zA-Z0-9-_]`: the `-` after the range `0-9` is a literal hyphen. */
  predicate IsIdChar(c: char) {
    ('a' <= c <= 'z') || ('A' <= c <= 'Z') || ('0' <= c <= '9') || c == '-' || c == '_'
  }

  /** What the greedy group `([a-zA-Z0-9-_]+)` takes from the front of `t`:
      the longest prefix made of id characters. */
  function IdRun(t: string): (r: string)
    ensures |r| <= |t| && r == t[..|r|]
    ensures forall k :: 0 <= k < |r| ==> IsIdChar(r[k])
    ensures |r| == |t| || !IsIdChar(t[|r|])
  {
    if t == [] || !IsIdChar(t[0]) then [] else [t[0]] + IdRun(t[1..])
  }

  /** The pattern `<m>([a-zA-Z0-9-_]+)` matches `s` at position `i`. */
  ghost predicate MarkerMatchAt(s: string, m: string, i: int) {
    0 <= i && i + |m| < |s| && s[i..i + |m|] == m && IsIdChar(s[i + |m|])
  }

  /** `i` is where `re.search` finds `<m>([a-zA-Z0-9-_]+)`: the leftmost match. */
  ghost predicate LeftmostMarkerMatch(s: string, m: string, i: int) {
    MarkerMatchAt(s, m, i) && forall j :: 0 <= j < i ==> !MarkerMatchAt(s, m, j)
  }

  /** The first position at or after `from` where the marker pattern matches. */
  function FirstMarkerMatch(s: string, m: string, from: nat): (r: Option<nat>)
    ensures r.Some? ==> from <= r.value && MarkerMatchAt(s, m, r.value)
    ensures forall j :: from <= j && (r.None? || j < r.value) ==> !MarkerMatchAt(s, m, j)
    decreases |s| - from
  {
    if from + |m| >= |s| then None
    else if s[from..from + |m|] == m && IsIdChar(s[from + |m|]) then Some(from)
    else FirstMarkerMatch(s, m, from + 1)
  }

  /** `re.search(m + r'([a-zA-Z0-9-_]+)', s).group(1)`, or `None` without a match:
      the maximal run of id characters after the leftmost marker that is
      followed by at least one id character. */
  function SearchMarker(s: string, m: string): (r: Option<string>)
    ensures r.None? <==> forall i :: !MarkerMatchAt(s, m, i)
    ensures r.Some? ==> exists i :: LeftmostMarkerMatch(s, m, i) && r.value == IdRun(s[i + |m|..])
    ensures r.Some? ==> r.value != [] && forall k :: 0 <= k < |r.value| ==> IsIdChar(r.value[k])
  {
    match FirstMarkerMatch(s, m, 0)
    case None => None
    case Some(i) =>
      assert LeftmostMarkerMatch(s, m, i);
      Some(IdRun(s[i + |m|..]))
  }

  /** The literal part `drive\.google\.com\/` of the catch-all pattern. */
  const DriveAnchor := "drive.google.com/"

  /** Python's `$` without MULTILINE matches at the end of the string and just
      before a newline that ends the string. */
  ghost predicate AtDollar(s: string, e: int) {
    e == |s| || (0 <= e && e + 1 == |s| && s[e] == '\n')
  }

  /** The anchor occurs at `i` and the `.*` after it, which never crosses a
      newline, can reach position `p`. */
  ghost predicate AnchorReaches(s: string, i: int, p: int) {
    && 0 <= i && i + |DriveAnchor| <= p <= |s|
    && s[i..i + |DriveAnchor|] == DriveAnchor
    && (forall t :: i + |DriveAnchor| <= t < p ==> s[t] != '\n')
  }

  /** `drive\.google\.com\/.*\/([a-zA-Z0-9-_]+)$` matches with the anchor at
      `i`, the second `/` at `p`, and the group `s[p+1..e]` ending where `$` holds. */
  ghost predicate CatchAllMatch(s: string, i: int, p: int, e: int) {
    && AnchorReaches(s, i, p)
    && p + 1 < e <= |s|
    && s[p] == '/'
    && (forall t :: p < t < e ==> IsIdChar(s[t]))
    && AtDollar(s, e)
  }

  /** Where the trailing run of id characters of `s[..e]` starts. */
  function IdSuffixStart(s: string, e: nat): (k: nat)
    requires e <= |s|
    ensures k <= e
    ensures forall t :: k <= t < e ==> IsIdChar(s[t])
    ensures k == 0 || !IsIdChar(s[k - 1])
  {
    if e == 0 || !IsIdChar(s[e - 1]) then e else IdSuffixStart(s, e - 1)
  }

  /** Whether an anchor ending at or before `j` reaches `p`, scanning back
      from `j`; no newline lies between `j` and `p`. */
  function AnchorBefore(s: string, j: nat, p: nat): (b: bool)
    requires j <= p <= |s|
    requires forall t :: j <= t < p ==> s[t] != '\n'
    ensures b <==> exists i :: i + |DriveAnchor| <= j && AnchorReaches(s, i, p)
    decreases j
  {
    if j < |DriveAnchor| then false
    else if s[j - |DriveAnchor|..j] == DriveAnchor then
      assert AnchorReaches(s, j - |DriveAnchor|, p);
      true
    else if s[j - 1] == '\n' then
      assert forall i :: i + |DriveAnchor| < j && AnchorReaches(s, i, p) ==> s[j - 1] != '\n';
      false
    else
      AnchorBefore(s, j - 1, p)
  }

  /** The group of the catch-all pattern, computed from the end of the string. */
  function CatchAll(s: string): Option<string> {
    var e := if |s| > 0 && s[|s| - 1] == '\n' then |s| - 1 else |s|;
    var k := IdSuffixStart(s, e);
    if k == 0 || k == e || s[k - 1] != '/' then None
    else if AnchorBefore(s, k - 1, k - 1) then Some(s[k..e])
    else None
  }

  /** `CatchAll` is the regex: it finds a group exactly when the regex matches,
      and every way the regex can match yields that same group, the last path
      segment (before a final newline). */
  lemma CatchAllIsRegexMatch(s: string)
    ensures CatchAll(s).Some? <==> exists i, p, e :: CatchAllMatch(s, i, p, e)
    ensures forall i, p, e :: CatchAllMatch(s, i, p, e) ==> CatchAll(s) == Some(s[p + 1..e])
  {
    var e := if |s| > 0 && s[|s| - 1] == '\n' then |s| - 1 else |s|;
    var k := IdSuffixStart(s, e);
    forall i, p, e' | CatchAllMatch(s, i, p, e') ensures e' == e && p == k - 1 && k < e && AnchorBefore(s, k - 1, k - 1) {
      assert IsIdChar(s[e' - 1]);
      assert e' == e;
      assert !IsIdChar(s[p]);
      assert p == k - 1;
      assert AnchorReaches(s, i, k - 1);
    }
    if CatchAll(s).Some? {
      var i :| i + |DriveAnchor| <= k - 1 && AnchorReaches(s, i, k - 1);
      assert CatchAllMatch(s, i, k - 1, e);
    }
  }

  /** `'http' not in url and len(url) > 15`: the raw-id fallback's test,
      on the input before stripping. */
  predicate LooksLikeRawId(url: string) {
    !Contains(url, "http") && |url| > 15
  }

  /** `extract_folder_id`: the three patterns in order, the first that matches
      anywhere decides; otherwise the stripped input if it looks like a raw id. */
  function ExtractFolderId(url: string): Option<string> {
    var byFolders := SearchMarker(url, "folders/");
    if byFolders.Some? then byFolders
    else
      var byParam := SearchMarker(url, "id=");
      if byParam.Some? then byParam
      else
        var byTail := CatchAll(url);
        if byTail.Some? then byTail
        else if LooksLikeRawId(url) then Some(Strip(url))
        else None
  }

  /** The order of the patterns, stated against the regex semantics. */
  lemma ExtractFolderIdSpec(url: string)
    ensures (exists i :: MarkerMatchAt(url, "folders/", i)) ==>
      exists i :: LeftmostMarkerMatch(url, "folders/", i) && ExtractFolderId(url) == Some(IdRun(url[i + 8..]))
    ensures (forall i :: !MarkerMatchAt(url, "folders/", i)) && (exists i :: MarkerMatchAt(url, "id=", i)) ==>
      exists i :: LeftmostMarkerMatch(url, "id=", i) && ExtractFolderId(url) == Some(IdRun(url[i + 3..]))
    ensures (forall i :: !MarkerMatchAt(url, "folders/", i)) && (forall i :: !MarkerMatchAt(url, "id=", i)) ==>
      forall i, p, e :: CatchAllMatch(url, i, p, e) ==> ExtractFolderId(url) == Some(url[p + 1..e])
    ensures ExtractFolderId(url).None? <==>
      && (forall i :: !MarkerMatchAt(url, "folders/", i))
      && (forall i :: !MarkerMatchAt(url, "id=", i))
      && (forall i, p, e :: !CatchAllMatch(url, i, p, e))
      && !LooksLikeRawId(url)
    ensures
      && (forall i :: !MarkerMatchAt(url, "folders/", i))
      && (forall i :: !MarkerMatchAt(url, "id=", i))
      && (forall i, p, e :: !CatchAllMatch(url, i, p, e))
      && LooksLikeRawId(url)
      ==> ExtractFolderId(url) == Some(Strip(url))
  {
    CatchAllIsRegexMatch(url);
    var byFolders := SearchMarker(url, "folders/");
    if byFolders.Some? {
      var i :| LeftmostMarkerMatch(url, "folders/", i) && byFolders.value == IdRun(url[i + |"folders/"|..]);
      assert ExtractFolderId(url) == Some(IdRun(url[i + 8..]));
    } else {
      var byParam := SearchMarker(url, "id=");
      if byParam.Some? {
        var i :| LeftmostMarkerMatch(url, "id=", i) && byParam.value == IdRun(url[i + |"id="|..]);
        assert ExtractFolderId(url) == Some(IdRun(url[i + 3..]));
      }
    }
  }

  lemma {:induction false} BlankStripsToEmpty(s: string)
    requires forall k :: 0 <= k < |s| ==> s[k] == ' '
    ensures LStrip(s) == []
  {
    if s != [] {
      BlankStripsToEmpty(s[1..]);
    }
  }

  /** The length test of the fallback looks at the input before stripping:
      a link of more than fifteen spaces passes it and yields an empty
      folder id. */
  lemma BlankInputYieldsEmptyId(s: string)
    requires |s| > 15 && forall k :: 0 <= k < |s| ==> s[k] == ' '
    ensures ExtractFolderId(s) == Some("")
  {
    assert forall i :: !MarkerMatchAt(s, "folders/", i);
    assert forall i :: !MarkerMatchAt(s, "id=", i);
    assert !IsIdChar(s[|s| - 1]);
    assert IdSuffixStart(s, |s|) == |s|;
    forall i | 0 <= i <= |s| - 4 ensures !OccursAt(s, "http", i) {
      assert s[i..i + 4][0] == ' ';
    }
    BlankStripsToEmpty(s);
  }

  // ---------------------------------------------------------------------------
  // get_folder_metadata
  // ---------------------------------------------------------------------------

  /** The dictionary `get_folder_metadata` returns. */
  datatype FolderMetadata = FolderMetadata(folderName: Option<string>, ownerName: string, folderId: Option<string>)

  /** What `get_folder_metadata` returns when anything inside its `try` raises. */
  function MetadataFallback(folderId: string): FolderMetadata {
    FolderMetadata(Some("Unknown"), "Unknown", Some(folderId))
  }

  /** `get_folder_metadata`; `response` is the answer of `files().get`, or
      `None` when the request raises. Reading `displayName` of a first owner
      that lacks it raises inside the `try` as well. */
  function GetFolderMetadata(folderId: string, response: Option<FileResource>): (md: FolderMetadata)
    ensures md.ownerName == "Unknown"
         || (response.Some? && |response.value.owners| > 0 && response.value.owners[0].displayName == Some(md.ownerName))
    ensures response.None? ==> md == MetadataFallback(folderId)
    ensures response.Some? && |response.value.owners| == 0 ==>
      md == FolderMetadata(response.value.name, "Unknown", response.value.id)
    ensures response.Some? && |response.value.owners| > 0 && response.value.owners[0].displayName.Some? ==>
      md == FolderMetadata(response.value.name, response.value.owners[0].displayName.value, response.value.id)
    ensures response.Some? && |response.value.owners| > 0 && response.value.owners[0].displayName.None? ==>
      md == MetadataFallback(folderId)
    ensures md.folderId == Some(folderId) || (response.Some? && md.folderId == response.value.id)
  {
    match response
    case None => MetadataFallback(folderId)
    case Some(file) =>
      if |file.owners| > 0 && file.owners[0].displayName.None? then MetadataFallback(folderId)
      else
        var ownerName := if |file.owners| > 0 then file.owners[0].displayName.value else "Unknown";
        FolderMetadata(file.name, ownerName, file.id)
  }

  /** Only the first owner is read: owners after it never change the result. */
  lemma MetadataReadsFirstOwnerOnly(folderId: string, file: FileResource, first: Owner, rest: seq<Owner>)
    ensures GetFolderMetadata(folderId, Some(file.(owners := [first] + rest)))
         == GetFolderMetadata(folderId, Some(file.(owners := [first])))
  {
  }

  // ---------------------------------------------------------------------------
  // list_files
  // ---------------------------------------------------------------------------

  /** `TARGET_MIMES`: the receipt types the audit collects. */
  const TargetMimes: seq<string> := ["image/jpeg", "image/png", "application/pdf", "image/heif", "image/heic", "image/webp"]

  /** What `list_files` contributes for one entry. */
  function Collected(e: Entry, recursive: bool): (r: seq<FileItem>)
    ensures forall it :: it in r ==> it.mime in TargetMimes
    decreases e
  {
    if e.mimeType == FolderMime && recursive then CollectedListing(e.children, recursive)
    else if e.mimeType in TargetMimes then [ItemOf(e)]
    else []
  }

  /** What `list_files` returns for a folder: every page served, in order. */
  function CollectedListing(l: Listing, recursive: bool): (r: seq<FileItem>)
    ensures forall it :: it in r ==> it.mime in TargetMimes
    decreases l
  {
    CollectedPages(l, Served(l), recursive)
  }

  /** What the first `n` pages of a listing contribute. */
  function CollectedPages(l: Listing, n: nat, recursive: bool): (r: seq<FileItem>)
    requires n <= |l.pages|
    ensures forall it :: it in r ==> it.mime in TargetMimes
    decreases l, n
  {
    if n == 0 then []
    else
      var p := l.pages[n - 1];
      assert p in l.pages;
      CollectedPages(l, n - 1, recursive) + CollectedEntries(p, |p.entries|, recursive)
  }

  /** What the first `n` entries of a page contribute. */
  function CollectedEntries(p: Page, n: nat, recursive: bool): (r: seq<FileItem>)
    requires n <= |p.entries|
    ensures forall it :: it in r ==> it.mime in TargetMimes
    decreases p, n
  {
    if n == 0 then []
    else
      assert p.entries[n - 1] in p.entries;
      CollectedEntries(p, n - 1, recursive) + Collected(p.entries[n - 1], recursive)
  }

  /** `list_files(folder_id, recursive)`: pages through the folder until no
      `nextPageToken` is left or a request raises, keeping target files and
      descending into sub-folders when `recursive` holds. */
  method ListFiles(l: Listing, recursive: bool) returns (found: seq<FileItem>)
    ensures found == CollectedListing(l, recursive)
    ensures forall it :: it in found ==> it.mime in TargetMimes
    decreases l
  {
    found := [];
    var k := 0;
    while k < |l.pages|
      invariant k <= Served(l)
      invariant found == CollectedPages(l, k, recursive)
      decreases |l.pages| - k
    {
      if l.failsAt == Some(k) {
        // the request raises; the `except` returns what was gathered so far
        break;
      }
      var page := l.pages[k];
      assert page in l.pages;
      var j := 0;
      while j < |page.entries|
        invariant j <= |page.entries|
        invariant found == CollectedPages(l, k, recursive) + CollectedEntries(page, j, recursive)
      {
        var e := page.entries[j];
        assert e in page.entries;
        if e.mimeType == FolderMime && recursive {
          var sub := ListFiles(e.children, true);
          found := found + sub;
        } else if e.mimeType in TargetMimes {
          found := found + [ItemOf(e)];
        }
        j := j + 1;
      }
      k := k + 1;
    }
  }

  // ---------------------------------------------------------------------------
  // Properties of the listing
  // ---------------------------------------------------------------------------

  /** The entries of a run of pages, in listing order. */
  function EntriesOf(ps: seq<Page>): seq<Entry> {
    if ps == [] then [] else EntriesOf(ps[..|ps| - 1]) + ps[|ps| - 1].entries
  }

  /** The items for the entries whose type is a target type, in order. */
  function TargetsAmong(es: seq<Entry>): seq<FileItem> {
    if es == [] then []
    else
      var last := es[|es| - 1];
      TargetsAmong(es[..|es| - 1]) + (if last.mimeType in TargetMimes then [ItemOf(last)] else [])
  }

  lemma {:induction false} TargetsAmongAppend(a: seq<Entry>, b: seq<Entry>)
    ensures TargetsAmong(a + b) == TargetsAmong(a) + TargetsAmong(b)
    decreases |b|
  {
    if b != [] {
      assert (a + b)[..|a + b| - 1] == a + b[..|b| - 1];
      TargetsAmongAppend(a, b[..|b| - 1]);
    } else {
      assert a + b == a;
    }
  }

  lemma {:induction false} NonRecursiveEntries(p: Page, n: nat)
    requires n <= |p.entries|
    ensures CollectedEntries(p, n, false) == TargetsAmong(p.entries[..n])
  {
    if n > 0 {
      NonRecursiveEntries(p, n - 1);
      assert p.entries[..n][..n - 1] == p.entries[..n - 1];
    }
  }

  lemma {:induction false} NonRecursivePages(l: Listing, n: nat)
    requires n <= |l.pages|
    ensures CollectedPages(l, n, false) == TargetsAmong(EntriesOf(l.pages[..n]))
  {
    if n > 0 {
      var p := l.pages[n - 1];
      NonRecursivePages(l, n - 1);
      NonRecursiveEntries(p, |p.entries|);
      assert l.pages[..n][..n - 1] == l.pages[..n - 1];
      assert p.entries[..|p.entries|] == p.entries;
      TargetsAmongAppend(EntriesOf(l.pages[..n - 1]), p.entries);
    }
  }

  /** With `recursive=False` a folder falls through to the skip branch: the
      result is exactly the served direct children with a target type, in
      listing order. */
  lemma ListFilesNonRecursive(l: Listing)
    ensures CollectedListing(l, false) == TargetsAmong(EntriesOf(l.pages[..Served(l)]))
  {
    NonRecursivePages(l, Served(l));
  }

  lemma {:induction false} EntriesPrefix(p: Page, j: nat, n: nat, recursive: bool)
    requires j <= n <= |p.entries|
    ensures CollectedEntries(p, j, recursive) <= CollectedEntries(p, n, recursive)
    decreases n
  {
    if j < n {
      EntriesPrefix(p, j, n - 1, recursive);
    }
  }

  lemma {:induction false} PagesPrefix(l: Listing, j: nat, n: nat, recursive: bool)
    requires j <= n <= |l.pages|
    ensures CollectedPages(l, j, recursive) <= CollectedPages(l, n, recursive)
    decreases n
  {
    if j < n {
      PagesPrefix(l, j, n - 1, recursive);
    }
  }

  /** Depth-first order: the files of a sub-folder come right after what the
      entries before it produced and before anything that follows it. */
  lemma SubfolderInPlace(l: Listing, k: nat, j: nat)
    requires k < Served(l) && j < |l.pages[k].entries|
    requires l.pages[k].entries[j].mimeType == FolderMime
    ensures CollectedPages(l, k, true) + CollectedEntries(l.pages[k], j, true)
            + CollectedListing(l.pages[k].entries[j].children, true)
            <= CollectedListing(l, true)
  {
    var p := l.pages[k];
    EntriesPrefix(p, j + 1, |p.entries|, true);
    PagesPrefix(l, k + 1, Served(l), true);
    assert CollectedEntries(p, j + 1, true) == CollectedEntries(p, j, true) + CollectedListing(p.entries[j].children, true);
  }

  lemma {:induction false} PagesAgree(l1: Listing, l2: Listing, n: nat, recursive: bool)
    requires n <= |l1.pages| && n <= |l2.pages| && l1.pages[..n] == l2.pages[..n]
    ensures CollectedPages(l1, n, recursive) == CollectedPages(l2, n, recursive)
  {
    if n > 0 {
      assert l1.pages[n - 1] == l1.pages[..n][n - 1] == l2.pages[n - 1];
      assert l1.pages[..n - 1] == l1.pages[..n][..n - 1];
      assert l2.pages[..n - 1] == l2.pages[..n][..n - 1];
      PagesAgree(l1, l2, n - 1, recursive);
    }
  }

  /** A listing error is swallowed: the folder yields what the pages before
      the failing request produced, which is a prefix of what the complete
      listing would have produced. */
  lemma FailureKeepsServedPrefix(pages: seq<Page>, k: nat, recursive: bool)
    requires k <= |pages|
    ensures CollectedListing(Listing(pages, Some(k)), recursive) == CollectedListing(Listing(pages[..k], None), recursive)
    ensures CollectedListing(Listing(pages, Some(k)), recursive) <= CollectedListing(Listing(pages, None), recursive)
  {
    PagesAgree(Listing(pages, Some(k)), Listing(pages[..k], None), k, recursive);
    PagesAgree(Listing(pages, Some(k)), Listing(pages, None), k, recursive);
    PagesPrefix(Listing(pages, None), k, |pages|, recursive);
  }
}
