/**
 * The Google Drive service as the audit code sees it, with the API calls
 * abstracted away. Listing a folder returns its children page by page; a
 * folder entry leads to the listing of that folder. A request may raise,
 * which ends the paging of that one folder.
 */
module DriveTree {
  import opened Options

  /** The MIME type Drive gives to folders. */
  const FolderMime := "application/vnd.google-apps.folder"

  /** One child returned by `files().list`: its `id`, `name` and `mimeType`.
      `children` is what listing this entry's id returns; only folders use it. */
  datatype Entry = Entry(id: string, name: string, mimeType: string, children: Listing)

  /** The `files` array of one response. */
  datatype Page = Page(entries: seq<Entry>)

  /** The pages of a folder in the order `nextPageToken` chains them. When
      `failsAt` is `Some(k)`, the request for page `k` raises instead of
      answering, so only the pages before it are seen. */
  datatype Listing = Listing(pages: seq<Page>, failsAt: Option<nat>)

  /** How many pages a client receives before the paging stops. */
  function Served(l: Listing): (n: nat)
    ensures n <= |l.pages|
  {
    match l.failsAt
    case None => |l.pages|
    case Some(k) => if k < |l.pages| then k else |l.pages|
  }

  /** A file record handed to the audit: id, name and MIME type. */
  datatype FileItem = FileItem(id: string, name: string, mime: string)

  /** The item a listing produces for an entry it keeps. */
  function ItemOf(e: Entry): FileItem {
    FileItem(e.id, e.name, e.mimeType)
  }

  /** An owner as returned in `owners(displayName, ...)`. */
  datatype Owner = Owner(displayName: Option<string>)

  /** The answer of `files().get`: fields absent from the answer are `None`;
      an absent `owners` list is the empty list. */
  datatype FileResource = FileResource(id: Option<string>, name: Option<string>, owners: seq<Owner>)
}
