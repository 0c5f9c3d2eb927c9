/**
 * The bookmark-file serialiser (utils/bookmarkGenerator.ts): writes a forest
 * of folders in the Netscape bookmark file format (NETSCAPE-Bookmark-file-1),
 * a fixed header, one H3/DL block per folder indented four spaces per level,
 * one DT/A line per bookmark, and the closing footer.
 *
 * The functions give the text each piece produces; the methods build it the
 * way the program does, appending to a string inside loops, and are proved to
 * produce that text.
 */
module BookmarkGenerator {
  import opened Wrappers
  import opened Types
  import opened Text
  import opened Seqs

  const Header: string :=
    "<!DOCTYPE NETSCAPE-Bookmark-file-1>\n"
    + "<!-- This is an automatically generated file.\n"
    + "     It will be read and overwritten.\n"
    + "     DO NOT EDIT! -->\n"
    + "<META HTTP-EQUIV=\"Content-Type\" CONTENT=\"text/html; charset=UTF-8\">\n"
    + "<TITLE>Bookmarks</TITLE>\n"
    + "<H1>Bookmarks</H1>\n"
    + "<DL><p>\n"

  const Footer: string := "</DL><p>\n"

  /** Four spaces per nesting level. */
  function Indent(level: nat): string
  {
    Repeat("    ", level)
  }

  /** The indent at level n is exactly 4·n spaces. */
  lemma {:induction false} IndentSpaces(level: nat)
    ensures |Indent(level)| == 4 * level
    ensures forall i :: 0 <= i < |Indent(level)| ==> Indent(level)[i] == ' '
  {
    if level > 0 {
      IndentSpaces(level - 1);
      assert Indent(level) == "    " + Indent(level - 1);
    }
  }

  /** ` TAGS="a,b"` when the bookmark has a non-empty tag list, nothing otherwise. */
  function TagsAttribute(b: Bookmark): string
  {
    if b.tags.Some? && |b.tags.value| > 0 then " TAGS=\"" + Join(b.tags.value, ",") + "\"" else ""
  }

  /** `generateBookmarkHtml`: one indented DT line linking to the URL, with the tags attribute and the title. */
  function BookmarkHtml(b: Bookmark, level: nat): string
  {
    Indent(level) + "<DT><A HREF=\"" + b.url + "\"" + TagsAttribute(b) + ">" + b.title + "</A>\n"
  }

  /** The lines of the bookmarks `bs` at `level`, in order. */
  function BookmarksHtml(bs: seq<Bookmark>, level: nat): string
  {
    if bs == [] then "" else BookmarksHtml(bs[..|bs| - 1], level) + BookmarkHtml(bs[|bs| - 1], level)
  }

  /** `generateFolderHtml`: the H3 line, the opening DL, the bookmarks, the subfolders, the closing DL. */
  function FolderHtml(f: BookmarkFolder, level: nat): string
    decreases f, 1
  {
    Indent(level) + "<DT><H3>" + f.folderName + "</H3>\n"
    + Indent(level) + "<DL><p>\n"
    + BookmarksHtml(f.bookmarks, level + 1)
    + FoldersHtml(f.subfolders, level + 1)
    + Indent(level) + "</DL><p>\n"
  }

  /** The blocks of the folders `fs` at `level`, in order. */
  function FoldersHtml(fs: seq<BookmarkFolder>, level: nat): string
    decreases fs, 0
  {
    if fs == [] then "" else FoldersHtml(fs[..|fs| - 1], level) + FolderHtml(fs[|fs| - 1], level)
  }

  /** `generateBookmarksHtml`: the header, the root folders at level 1, the footer. */
  function Document(structure: seq<BookmarkFolder>): string
  {
    Header + FoldersHtml(structure, 1) + Footer
  }

  lemma BookmarksSnoc(bs: seq<Bookmark>, i: nat, level: nat)
    requires i < |bs|
    ensures BookmarksHtml(bs[..i + 1], level) == BookmarksHtml(bs[..i], level) + BookmarkHtml(bs[i], level)
  {
    assert bs[..i + 1][..i] == bs[..i];
  }

  lemma FoldersSnoc(fs: seq<BookmarkFolder>, i: nat, level: nat)
    requires i < |fs|
    ensures FoldersHtml(fs[..i + 1], level) == FoldersHtml(fs[..i], level) + FolderHtml(fs[i], level)
  {
    assert fs[..i + 1][..i] == fs[..i];
  }

  // ---------------------------------------------------------------------------
  // The generator as the program runs it

  method GenerateFolderHtml(folder: BookmarkFolder, level: nat) returns (content: string)
    ensures content == FolderHtml(folder, level)
    decreases folder
  {
    var indent := Indent(level);
    content := indent + "<DT><H3>" + folder.folderName + "</H3>\n";
    content := content + indent + "<DL><p>\n";
    ghost var opening := content;
    var inner: nat := level + 1;
    var bs := folder.bookmarks;
    for i := 0 to |bs|
      invariant content == opening + BookmarksHtml(bs[..i], inner)
    {
      var line := BookmarkHtml(bs[i], inner);
      BookmarksSnoc(bs, i, inner);
      ghost var before := content;
      content := content + line;
      AppendStep(opening, before, content, BookmarksHtml(bs[..i], inner), line, BookmarksHtml(bs[..i + 1], inner));
    }
    assert bs[..|bs|] == bs;
    ghost var withBookmarks := content;
    var fs := folder.subfolders;
    for j := 0 to |fs|
      invariant content == withBookmarks + FoldersHtml(fs[..j], inner)
    {
      var block := GenerateFolderHtml(fs[j], inner);
      FoldersSnoc(fs, j, inner);
      ghost var before := content;
      content := content + block;
      AppendStep(withBookmarks, before, content, FoldersHtml(fs[..j], inner), block, FoldersHtml(fs[..j + 1], inner));
    }
    assert fs[..|fs|] == fs;
    content := content + indent + "</DL><p>\n";
  }

  method GenerateBookmarksHtml(structure: seq<BookmarkFolder>) returns (html: string)
    ensures html == Document(structure)
  {
    html := Header;
    for i := 0 to |structure|
      invariant html == Header + FoldersHtml(structure[..i], 1)
    {
      var block := GenerateFolderHtml(structure[i], 1);
      FoldersSnoc(structure, i, 1);
      ghost var before := html;
      html := html + block;
      AppendStep(Header, before, html, FoldersHtml(structure[..i], 1), block, FoldersHtml(structure[..i + 1], 1));
    }
    assert structure[..|structure|] == structure;
    html := html + Footer;
  }

  // ---------------------------------------------------------------------------
  // Properties of the output

  /** An empty forest gives the header followed by the footer. */
  lemma EmptyDocument()
    ensures Document([]) == Header + Footer
  {
  }

  /** The TAGS attribute is present exactly when the tags are defined and non-empty. */
  lemma TagsAttributePresent(b: Bookmark)
    ensures TagsAttribute(b) != "" <==> b.tags.Some? && b.tags.value != []
    ensures TagsAttribute(b) != "" ==> StartsWith(TagsAttribute(b), " TAGS=\"")
  {
  }

  /**
   * The TAGS value is the tags joined by `,` with no spaces: splitting it on
   * `,` gives the tags back whenever no tag contains a comma.
   */
  lemma TagsAttributeRoundTrip(b: Bookmark)
    requires b.tags.Some? && b.tags.value != []
    requires forall i :: 0 <= i < |b.tags.value| ==> ',' !in b.tags.value[i]
    ensures var a := TagsAttribute(b);
      |a| >= 8 && a[..7] == " TAGS=\"" && a[|a| - 1] == '"' && Split(a[7..|a| - 1], ',') == b.tags.value
  {
    var a := TagsAttribute(b);
    assert a[7..|a| - 1] == Join(b.tags.value, ",");
    SplitJoin(b.tags.value, ',');
  }

  /** The number of lines of a text: its newline characters. */
  function LineCount(s: string): (r: nat)
    ensures r <= |s|
  {
    if s == [] then 0 else (if s[0] == '\n' then 1 else 0) + LineCount(s[1..])
  }

  /** No folder name, title, URL or tag of the forest spans a line break. */
  predicate SingleLine(fs: seq<BookmarkFolder>)
  {
    forall i :: 0 <= i < |fs| ==>
      && '\n' !in fs[i].folderName
      && (forall j :: 0 <= j < |fs[i].bookmarks| ==> BookmarkSingleLine(fs[i].bookmarks[j]))
      && SingleLine(fs[i].subfolders)
  }

  predicate BookmarkSingleLine(b: Bookmark)
  {
    '\n' !in b.title && '\n' !in b.url && forall k :: 0 <= k < |TagsOf(b)| ==> '\n' !in TagsOf(b)[k]
  }

  lemma {:induction false} JoinWithout(parts: seq<string>, sep: string, c: char)
    requires c !in sep && forall k :: 0 <= k < |parts| ==> c !in parts[k]
    ensures c !in Join(parts, sep)
  {
    if |parts| > 1 {
      JoinWithout(parts[1..], sep, c);
    }
  }

  lemma {:induction false} LineCountAppend(a: string, b: string)
    ensures LineCount(a + b) == LineCount(a) + LineCount(b)
  {
    if a == [] {
      assert a + b == b;
    } else {
      assert (a + b)[0] == a[0] && (a + b)[1..] == a[1..] + b;
      LineCountAppend(a[1..], b);
    }
  }

  lemma {:induction false} Unbroken(s: string)
    requires '\n' !in s
    ensures LineCount(s) == 0
  {
    if s != [] {
      Unbroken(s[1..]);
    }
  }

  lemma IndentUnbroken(level: nat)
    ensures LineCount(Indent(level)) == 0
  {
    IndentSpaces(level);
    assert '\n' !in Indent(level);
    Unbroken(Indent(level));
  }

  lemma TagsAttributeUnbroken(b: Bookmark)
    requires BookmarkSingleLine(b)
    ensures LineCount(TagsAttribute(b)) == 0
  {
    if b.tags.Some? && |b.tags.value| > 0 {
      assert TagsOf(b) == b.tags.value;
      JoinWithout(b.tags.value, ",", '\n');
      var j := Join(b.tags.value, ",");
      Unbroken(j);
      Unbroken(" TAGS=\"");
      Unbroken("\"");
      LineCountAppend(" TAGS=\"", j);
      LineCountAppend(" TAGS=\"" + j, "\"");
    }
  }

  /** The fixed pieces of a bookmark line: only the last one ends a line. */
  lemma AnchorStart()
    ensures LineCount("<DT><A HREF=\"") == 0
  {
    Unbroken("<DT><A HREF=\"");
  }

  lemma AttributeEnds()
    ensures LineCount("\"") == 0 && LineCount(">") == 0
  {
    Unbroken("\"");
    Unbroken(">");
  }

  lemma AnchorEnd()
    ensures LineCount("</A>\n") == 1
  {
  }

  /** Each bookmark adds exactly one line. */
  lemma BookmarkOneLine(b: Bookmark, level: nat)
    requires BookmarkSingleLine(b)
    ensures LineCount(BookmarkHtml(b, level)) == 1
  {
    IndentUnbroken(level);
    TagsAttributeUnbroken(b);
    Unbroken(b.url);
    Unbroken(b.title);
    AnchorStart();
    AttributeEnds();
    AnchorEnd();
    var p1 := Indent(level) + "<DT><A HREF=\"";
    var p2 := p1 + b.url;
    var p3 := p2 + "\"";
    var p4 := p3 + TagsAttribute(b);
    var p5 := p4 + ">";
    var p6 := p5 + b.title;
    LineCountAppend(Indent(level), "<DT><A HREF=\"");
    LineCountAppend(p1, b.url);
    LineCountAppend(p2, "\"");
    LineCountAppend(p3, TagsAttribute(b));
    LineCountAppend(p4, ">");
    LineCountAppend(p5, b.title);
    LineCountAppend(p6, "</A>\n");
  }

  lemma {:induction false} BookmarksLines(bs: seq<Bookmark>, level: nat)
    requires forall j :: 0 <= j < |bs| ==> BookmarkSingleLine(bs[j])
    ensures LineCount(BookmarksHtml(bs, level)) == |bs|
  {
    if bs != [] {
      var n := |bs| - 1;
      var init := bs[..n];
      assert forall j :: 0 <= j < n ==> init[j] == bs[j];
      BookmarksLines(init, level);
      BookmarkOneLine(bs[n], level);
      var prefix, line := BookmarksHtml(init, level), BookmarkHtml(bs[n], level);
      assert BookmarksHtml(bs, level) == prefix + line;
      LineCountAppend(prefix, line);
    }
  }

  /** The fixed pieces of a folder block: one line each, except the opening tag. */
  lemma FolderFragments()
    ensures LineCount("<DT><H3>") == 0
    ensures LineCount("</H3>\n") == 1 && LineCount("<DL><p>\n") == 1 && LineCount("</DL><p>\n") == 1
  {
    Unbroken("<DT><H3>");
    HeadingEnd();
    ListOpen();
    ListClose();
  }

  lemma HeadingEnd()
    ensures LineCount("</H3>\n") == 1
  {
  }

  lemma ListOpen()
    ensures LineCount("<DL><p>\n") == 1
  {
  }

  lemma ListClose()
    ensures LineCount("</DL><p>\n") == 1
  {
  }

  /** Each folder adds exactly three lines of its own, each bookmark one. */
  lemma {:induction false} FolderLines(f: BookmarkFolder, level: nat)
    requires SingleLine([f])
    ensures LineCount(FolderHtml(f, level)) == 3 * FolderCount([f]) + |AllBookmarks([f])|
    decreases f, 1
  {
    assert [f][0] == f && [f][1..] == [];
    BookmarksLines(f.bookmarks, level + 1);
    FoldersLines(f.subfolders, level + 1);
    IndentUnbroken(level);
    Unbroken(f.folderName);
    FolderFragments();
    var i := Indent(level);
    var p1 := i + "<DT><H3>";
    var p2 := p1 + f.folderName;
    var p3 := p2 + "</H3>\n";
    var p4 := p3 + i;
    var p5 := p4 + "<DL><p>\n";
    var p6 := p5 + BookmarksHtml(f.bookmarks, level + 1);
    var p7 := p6 + FoldersHtml(f.subfolders, level + 1);
    var p8 := p7 + i;
    LineCountAppend(i, "<DT><H3>");
    LineCountAppend(p1, f.folderName);
    LineCountAppend(p2, "</H3>\n");
    LineCountAppend(p3, i);
    LineCountAppend(p4, "<DL><p>\n");
    LineCountAppend(p5, BookmarksHtml(f.bookmarks, level + 1));
    LineCountAppend(p6, FoldersHtml(f.subfolders, level + 1));
    LineCountAppend(p7, i);
    LineCountAppend(p8, "</DL><p>\n");
  }

  lemma {:induction false} FoldersLines(fs: seq<BookmarkFolder>, level: nat)
    requires SingleLine(fs)
    ensures LineCount(FoldersHtml(fs, level)) == 3 * FolderCount(fs) + |AllBookmarks(fs)|
    decreases fs, 0
  {
    if fs != [] {
      var n := |fs| - 1;
      assert fs == fs[..n] + [fs[n]];
      SingleLineSplit(fs);
      FoldersLines(fs[..n], level);
      FolderLines(fs[n], level);
      LineCountAppend(FoldersHtml(fs[..n], level), FolderHtml(fs[n], level));
      FolderCountAppend(fs[..n], [fs[n]]);
      AllBookmarksAppend(fs[..n], [fs[n]]);
    }
  }

  lemma SingleLineSplit(fs: seq<BookmarkFolder>)
    requires fs != [] && SingleLine(fs)
    ensures SingleLine(fs[..|fs| - 1]) && SingleLine([fs[|fs| - 1]])
  {
    var n := |fs| - 1;
    forall i | 0 <= i < n ensures fs[..n][i] == fs[i] { }
    assert [fs[n]][0] == fs[n];
  }

  /**
   * The whole file: the header's lines, three per folder at any depth, one per
   * bookmark, and the footer's one.
   */
  lemma DocumentLines(structure: seq<BookmarkFolder>)
    requires SingleLine(structure)
    ensures LineCount(Document(structure)) == LineCount(Header) + 3 * FolderCount(structure) + |AllBookmarks(structure)| + 1
  {
    var body := FoldersHtml(structure, 1);
    FoldersLines(structure, 1);
    ListClose();
    LineCountAppend(Header, body);
    LineCountAppend(Header + body, Footer);
  }
}
