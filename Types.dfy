/**
 * The bookmark data model (types.ts): a bookmark is a leaf with a title, a URL
 * and optional tags; a folder has a name, its own bookmarks and its subfolders.
 * A structure is a forest: a sequence of root folders.
 */
module Types {
  import opened Wrappers

  datatype Bookmark = Bookmark(title: string, url: string, tags: Option<seq<string>>)

  datatype BookmarkFolder = BookmarkFolder(
    folderName: string,
    bookmarks: seq<Bookmark>,
    subfolders: seq<BookmarkFolder>)

  /** The tags of a bookmark, with absent tags read as none (`bookmark.tags?.forEach`). */
  function TagsOf(b: Bookmark): seq<string>
  {
    if b.tags.Some? then b.tags.value else []
  }

  /** Number of folder instances in a forest, counting every nested subfolder. */
  function FolderCount(fs: seq<BookmarkFolder>): nat
  {
    if fs == [] then 0 else 1 + FolderCount(fs[0].subfolders) + FolderCount(fs[1..])
  }

  /**
   * Every bookmark occurrence of a forest in depth-first order: a folder's own
   * bookmarks, then those of its subfolders, then those of its later siblings.
   */
  function AllBookmarks(fs: seq<BookmarkFolder>): seq<Bookmark>
  {
    if fs == [] then []
    else fs[0].bookmarks + AllBookmarks(fs[0].subfolders) + AllBookmarks(fs[1..])
  }

  /** The URLs of a sequence of bookmarks, in order. */
  function Urls(bs: seq<Bookmark>): seq<string>
  {
    seq(|bs|, i requires 0 <= i < |bs| => bs[i].url)
  }

  /** A URL occurs in `bs` exactly when it occurs before the last bookmark or is the last one's. */
  lemma UrlsSnoc(bs: seq<Bookmark>, u: string)
    requires bs != []
    ensures u in Urls(bs) <==> u in Urls(bs[..|bs| - 1]) || bs[|bs| - 1].url == u
  {
    assert Urls(bs) == Urls(bs[..|bs| - 1]) + [bs[|bs| - 1].url];
  }

  lemma UrlsAppend(a: seq<Bookmark>, b: seq<Bookmark>)
    ensures Urls(a + b) == Urls(a) + Urls(b)
  {
  }

  lemma {:induction false} FolderCountAppend(a: seq<BookmarkFolder>, b: seq<BookmarkFolder>)
    ensures FolderCount(a + b) == FolderCount(a) + FolderCount(b)
  {
    if a == [] {
      assert a + b == b;
    } else {
      assert (a + b)[1..] == a[1..] + b;
      FolderCountAppend(a[1..], b);
    }
  }

  /** A folder and everything under it count strictly less than the forest holding it. */
  /** Counting a prefix one folder longer adds that folder's own count. */
  lemma FolderCountStep(fs: seq<BookmarkFolder>, i: nat)
    requires i < |fs|
    ensures FolderCount(fs[..i + 1]) == FolderCount(fs[..i]) + FolderCount([fs[i]])
  {
    assert fs[..i + 1] == fs[..i] + [fs[i]];
    FolderCountAppend(fs[..i], [fs[i]]);
  }

  lemma {:induction false} FolderCountElement(fs: seq<BookmarkFolder>, i: nat)
    requires i < |fs|
    ensures FolderCount(fs[i].subfolders) < FolderCount(fs)
  {
    if i > 0 {
      FolderCountElement(fs[1..], i - 1);
    }
  }

  lemma {:induction false} AllBookmarksAppend(a: seq<BookmarkFolder>, b: seq<BookmarkFolder>)
    ensures AllBookmarks(a + b) == AllBookmarks(a) + AllBookmarks(b)
  {
    if a == [] {
      assert a + b == b;
    } else {
      assert (a + b)[1..] == a[1..] + b;
      AllBookmarksAppend(a[1..], b);
    }
  }
}
