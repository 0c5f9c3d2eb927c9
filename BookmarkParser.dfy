/**
 * The bookmark-file reader (utils/bookmarkParser.ts): every anchor element of
 * the uploaded document, in document order, becomes a bookmark unless its
 * link is missing, empty or an inline `data:` URL. The HTML parsing itself is
 * left to the browser; here the document is the sequence of its anchors.
 */
module BookmarkParser {
  import opened Wrappers
  import opened Types
  import opened Text
  import opened Seqs

  /** An `<a>` element as the reader sees it: its text content and its `href` attribute, each possibly absent. */
  datatype Anchor = Anchor(text: Option<string>, href: Option<string>)

  const NoTitle := "No Title"
  const DataScheme := "data:"

  /** The link's text with surrounding whitespace removed, or "No Title" when that leaves nothing. */
  function Title(link: Anchor): (title: string)
    ensures title != [] && IsTrimmed(title)
    ensures link.text.Some? && Trim(link.text.value) != [] ==> title == Trim(link.text.value)
    ensures link.text.None? || Trim(link.text.value) == [] ==> title == NoTitle
  {
    if link.text.Some? && Trim(link.text.value) != [] then
      TrimIsTrimmed(link.text.value);
      Trim(link.text.value)
    else
      NoTitle
  }

  /** A link is kept when its address is present, non-empty and not inline data. */
  predicate Kept(link: Anchor)
  {
    link.href.Some? && link.href.value != [] && !StartsWith(link.href.value, DataScheme)
  }

  /** The bookmark a kept anchor becomes: its title, its link verbatim, no tags. */
  function Entry(link: Anchor): Bookmark
    requires Kept(link)
  {
    Bookmark(Title(link), link.href.value, None)
  }

  /** The bookmarks read from the anchors, in document order. */
  function Parsed(links: seq<Anchor>): seq<Bookmark>
  {
    if links == [] then []
    else
      var last := links[|links| - 1];
      Parsed(links[..|links| - 1]) + (if Kept(last) then [Entry(last)] else [])
  }

  /** `parseBookmarksHtml`: one pass over the anchors, pushing each kept one. */
  method ParseBookmarksHtml(links: seq<Anchor>) returns (bookmarks: seq<Bookmark>)
    ensures bookmarks == Parsed(links)
  {
    bookmarks := [];
    for i := 0 to |links|
      invariant bookmarks == Parsed(links[..i])
    {
      var link := links[i];
      var title := Title(link);
      var url := link.href;
      assert links[..i + 1][..i] == links[..i];
      if url.Some? && url.value != [] && !StartsWith(url.value, DataScheme) {
        bookmarks := bookmarks + [Bookmark(title, url.value, None)];
      }
    }
    assert links[..|links|] == links;
  }

  // ---------------------------------------------------------------------------
  // Properties

  /** Reading a document in two parts reads each part in turn. */
  lemma {:induction false} ParsedAppend(a: seq<Anchor>, b: seq<Anchor>)
    ensures Parsed(a + b) == Parsed(a) + Parsed(b)
  {
    if b == [] {
      assert a + b == a;
    } else {
      AppendBack(a, b);
      ParsedAppend(a, b[..|b| - 1]);
    }
  }

  /** There is never more than one bookmark per anchor. */
  lemma {:induction false} ParsedLength(links: seq<Anchor>)
    ensures |Parsed(links)| <= |links|
  {
    if links != [] {
      ParsedLength(links[..|links| - 1]);
    }
  }

  /** Every bookmark read comes from a kept anchor, has a title, and carries no tags. */
  lemma {:induction false} ParsedEntries(links: seq<Anchor>)
    ensures forall b :: b in Parsed(links) ==>
      && (exists i :: 0 <= i < |links| && Kept(links[i]) && b == Entry(links[i]))
      && b.tags.None? && b.title != [] && IsTrimmed(b.title)
      && b.url != [] && !StartsWith(b.url, DataScheme)
  {
    if links != [] {
      var n := |links| - 1;
      ParsedEntries(links[..n]);
      forall b | b in Parsed(links)
        ensures exists i :: 0 <= i < |links| && Kept(links[i]) && b == Entry(links[i])
      {
        if b in Parsed(links[..n]) {
          var i :| 0 <= i < n && Kept(links[..n][i]) && b == Entry(links[..n][i]);
          assert links[..n][i] == links[i];
        } else {
          assert Kept(links[n]) && b == Entry(links[n]);
        }
      }
    }
  }

  /** Every kept anchor gives a bookmark. */
  lemma {:induction false} KeptAnchorRead(links: seq<Anchor>, i: nat)
    requires i < |links| && Kept(links[i])
    ensures Entry(links[i]) in Parsed(links)
  {
    var n := |links| - 1;
    if i < n {
      KeptAnchorRead(links[..n], i);
      assert links[..n][i] == links[i];
    }
  }

  /** Nothing is read exactly when no anchor is kept. */
  lemma NothingRead(links: seq<Anchor>)
    ensures Parsed(links) == [] <==> forall i :: 0 <= i < |links| ==> !Kept(links[i])
  {
    if Parsed(links) == [] {
      forall i | 0 <= i < |links| ensures !Kept(links[i]) {
        if Kept(links[i]) {
          KeptAnchorRead(links, i);
        }
      }
    } else {
      var b := Parsed(links)[0];
      ParsedEntries(links);
      assert b in Parsed(links);
    }
  }

  /**
   * The link test for any text content and any present link: kept exactly when
   * the link is non-empty and its first five characters are not, character for
   * character, `data:`.
   */
  lemma KeptIff(text: Option<string>, href: string)
    ensures Kept(Anchor(text, Some(href))) <==> href != [] && !(|href| >= 5 && href[..5] == "data:")
  {
  }

  /** An absent link is never kept. */
  lemma AbsentLinkDropped(text: Option<string>)
    ensures !Kept(Anchor(text, None))
  {
  }

  /** The `data:` test is case-sensitive: an upper-case scheme is kept. */
  lemma DataSchemeCaseSensitive()
    ensures Kept(Anchor(None, Some("DATA:image/png")))
    ensures !Kept(Anchor(None, Some("data:image/png")))
  {
    var upper: string := "DATA:image/png";
    assert upper[..5][0] == 'D' != DataScheme[0];
  }
}
