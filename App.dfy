/**
 * The pure logic of the application shell (App.tsx): replacing the tags of
 * every bookmark with a given URL across a suggested structure
 * (`updateRecursively` inside `handleUpdateBookmarkTags`), the guard that
 * turns an absent structure into an empty graph, and the check that an
 * uploaded file yielded at least one bookmark.
 */
module App {
  import opened Wrappers
  import opened Types
  import opened GraphTransformer
  import opened GraphProperties
  import opened BookmarkParser

  // ---------------------------------------------------------------------------
  // Tag update

  /** One bookmark after the update: `{ ...item, tags: newTags }` when its URL matches, else itself. */
  function UpdateBookmark(b: Bookmark, url: string, newTags: seq<string>): (r: Bookmark)
    ensures r.title == b.title && r.url == b.url
    ensures r.tags == if b.url == url then Some(newTags) else b.tags
  {
    if b.url == url then b.(tags := Some(newTags)) else b
  }

  /** A list of bookmarks after the update: each keeps its title and URL, and only those with the URL get the new tags. */
  function UpdateBookmarks(bs: seq<Bookmark>, url: string, newTags: seq<string>): (r: seq<Bookmark>)
    ensures |r| == |bs|
    ensures forall i :: 0 <= i < |bs| ==>
      && r[i].title == bs[i].title && r[i].url == bs[i].url
      && r[i].tags == (if bs[i].url == url then Some(newTags) else bs[i].tags)
  {
    seq(|bs|, i requires 0 <= i < |bs| => UpdateBookmark(bs[i], url, newTags))
  }

  /** One folder after the update: same name, its bookmarks and subfolders updated. */
  function UpdateFolder(f: BookmarkFolder, url: string, newTags: seq<string>): BookmarkFolder
    decreases f, 1
  {
    BookmarkFolder(f.folderName, UpdateBookmarks(f.bookmarks, url, newTags), UpdateFolders(f.subfolders, url, newTags))
  }

  /** `updateRecursively(items)`: the items mapped one by one. */
  function UpdateFolders(fs: seq<BookmarkFolder>, url: string, newTags: seq<string>): seq<BookmarkFolder>
    decreases fs, 0
  {
    if fs == [] then [] else [UpdateFolder(fs[0], url, newTags)] + UpdateFolders(fs[1..], url, newTags)
  }

  /**
   * `prev ? updateRecursively(prev) : null`: an absent structure stays absent;
   * a present one keeps its shape and has every bookmark occurrence updated.
   */
  function UpdateStructure(prev: Option<seq<BookmarkFolder>>, url: string, newTags: seq<string>)
    : (r: Option<seq<BookmarkFolder>>)
    ensures r.None? <==> prev.None?
    ensures prev.Some? ==>
      && Shape(r.value) == Shape(prev.value)
      && AllBookmarks(r.value) == UpdateBookmarks(AllBookmarks(prev.value), url, newTags)
  {
    if prev.Some? then
      UpdateKeepsShape(prev.value, url, newTags);
      UpdateAllBookmarks(prev.value, url, newTags);
      Some(UpdateFolders(prev.value, url, newTags))
    else
      None
  }

  /** The structure with every tag list forgotten: what an update must leave alone. */
  function Shape(fs: seq<BookmarkFolder>): seq<BookmarkFolder>
  {
    if fs == [] then []
    else
      [BookmarkFolder(fs[0].folderName, ShapeOfBookmarks(fs[0].bookmarks), Shape(fs[0].subfolders))]
      + Shape(fs[1..])
  }

  function ShapeOfBookmarks(bs: seq<Bookmark>): seq<Bookmark>
  {
    seq(|bs|, i requires 0 <= i < |bs| => bs[i].(tags := None))
  }

  /**
   * The tree shape is preserved: the same folders in the same order with the
   * same names, and the same bookmarks (titles and URLs) in each.
   */
  lemma {:induction false} UpdateKeepsShape(fs: seq<BookmarkFolder>, url: string, newTags: seq<string>)
    ensures Shape(UpdateFolders(fs, url, newTags)) == Shape(fs)
    ensures FolderCount(UpdateFolders(fs, url, newTags)) == FolderCount(fs)
  {
    if fs != [] {
      UpdateKeepsShape(fs[0].subfolders, url, newTags);
      UpdateKeepsShape(fs[1..], url, newTags);
      var r := UpdateFolders(fs, url, newTags);
      assert r[0] == UpdateFolder(fs[0], url, newTags) && r[1..] == UpdateFolders(fs[1..], url, newTags);
      assert ShapeOfBookmarks(r[0].bookmarks) == ShapeOfBookmarks(fs[0].bookmarks);
    }
  }

  /**
   * Every bookmark occurrence, at every depth, is updated in place: those with
   * the URL carry the new tags, the others are unchanged.
   */
  lemma {:induction false} UpdateAllBookmarks(fs: seq<BookmarkFolder>, url: string, newTags: seq<string>)
    ensures AllBookmarks(UpdateFolders(fs, url, newTags)) == UpdateBookmarks(AllBookmarks(fs), url, newTags)
  {
    if fs != [] {
      UpdateAllBookmarks(fs[0].subfolders, url, newTags);
      UpdateAllBookmarks(fs[1..], url, newTags);
      var r := UpdateFolders(fs, url, newTags);
      assert r[0] == UpdateFolder(fs[0], url, newTags) && r[1..] == UpdateFolders(fs[1..], url, newTags);
      var a, b, c := fs[0].bookmarks, AllBookmarks(fs[0].subfolders), AllBookmarks(fs[1..]);
      assert UpdateBookmarks(a + b + c, url, newTags)
        == UpdateBookmarks(a, url, newTags) + UpdateBookmarks(b, url, newTags) + UpdateBookmarks(c, url, newTags);
    }
  }

  /** When no bookmark has the URL, the update returns a structure equal to its input. */
  lemma {:induction false} UpdateAbsentUrl(fs: seq<BookmarkFolder>, url: string, newTags: seq<string>)
    requires url !in Urls(AllBookmarks(fs))
    ensures UpdateFolders(fs, url, newTags) == fs
  {
    if fs != [] {
      var a, b, c := fs[0].bookmarks, AllBookmarks(fs[0].subfolders), AllBookmarks(fs[1..]);
      assert Urls(a + b + c) == Urls(a) + Urls(b) + Urls(c);
      UpdateAbsentUrl(fs[0].subfolders, url, newTags);
      UpdateAbsentUrl(fs[1..], url, newTags);
      assert forall i :: 0 <= i < |a| ==> a[i].url == Urls(a)[i];
      assert UpdateBookmarks(a, url, newTags) == a;
      assert fs == [fs[0]] + fs[1..];
    }
  }

  /** Updates overwrite rather than accumulate: the second of two updates of one URL wins. */
  lemma {:induction false} UpdateOverwrites(fs: seq<BookmarkFolder>, url: string, tags1: seq<string>, tags2: seq<string>)
    ensures UpdateFolders(UpdateFolders(fs, url, tags1), url, tags2) == UpdateFolders(fs, url, tags2)
  {
    if fs != [] {
      UpdateOverwrites(fs[0].subfolders, url, tags1, tags2);
      UpdateOverwrites(fs[1..], url, tags1, tags2);
      var r := UpdateFolders(fs, url, tags1);
      assert r[0] == UpdateFolder(fs[0], url, tags1) && r[1..] == UpdateFolders(fs[1..], url, tags1);
      var a := fs[0].bookmarks;
      assert UpdateBookmarks(UpdateBookmarks(a, url, tags1), url, tags2) == UpdateBookmarks(a, url, tags2);
    }
  }

  /** Repeating an update changes nothing. */
  lemma UpdateIdempotent(fs: seq<BookmarkFolder>, url: string, newTags: seq<string>)
    ensures UpdateFolders(UpdateFolders(fs, url, newTags), url, newTags) == UpdateFolders(fs, url, newTags)
  {
    UpdateOverwrites(fs, url, newTags, newTags);
  }

  // ---------------------------------------------------------------------------
  // The graph of the suggested structure

  /** `graphData`: an empty graph while there is no structure, its transform otherwise. */
  function GraphData(structure: Option<seq<BookmarkFolder>>): (seq<GraphNode>, seq<GraphLink>)
  {
    if structure.None? then ([], []) else (GraphNodes(structure.value), GraphLinks(structure.value))
  }

  /**
   * An absent structure stays absent under an update and gives an empty graph;
   * so does a present but empty one.
   */
  lemma NoStructureNoGraph(prev: Option<seq<BookmarkFolder>>, url: string, newTags: seq<string>)
    requires prev.None? || prev == Some([])
    ensures GraphData(UpdateStructure(prev, url, newTags)) == ([], [])
  {
    if prev.Some? {
      EmptyForest();
    }
  }

  // ---------------------------------------------------------------------------
  // Uploading a file

  const NoBookmarksMessage := "No bookmarks found in the uploaded file. Please check the file format."

  /** After parsing an upload: an error when no bookmark was found, the bookmarks otherwise. */
  function CheckParsed(bookmarks: seq<Bookmark>): (r: Result<seq<Bookmark>, string>)
    ensures r.Failure? <==> bookmarks == []
    ensures r.Failure? ==> r.error == NoBookmarksMessage
    ensures r.Success? ==> r.value == bookmarks
  {
    if |bookmarks| == 0 then Failure(NoBookmarksMessage) else Success(bookmarks)
  }

  /** An upload is rejected exactly when none of its anchors is kept. */
  lemma UploadRejected(links: seq<Anchor>)
    ensures CheckParsed(Parsed(links)).Failure? <==> forall i :: 0 <= i < |links| ==> !Kept(links[i])
  {
    NothingRead(links);
  }
}
