# AI Bookmark Sorter — a verified model of its core

AI Bookmark Sorter reads a browser's bookmark export, asks a language model to
file the bookmarks into a tree of folders with tags, lets the user edit the
tags, shows the tree as a graph and writes it back out as a bookmark file.
This project models the logic under that flow and proves what it promises:

- **Types** — the bookmark data model: a bookmark has a title, a URL and
  optional tags; a folder has a name, bookmarks and subfolders.
- **GraphTransformer** — the tree-to-graph transform. The class `GraphBuilder`
  holds the state the source's walk updates in place (node and link arrays, the
  tag map with its key order, the folder-id source). Its methods are proved
  against value-level functions: the depth-first enumeration of folder
  instances `Visits`, the tag-pair step, and de-duplication of nodes by id.
- **GraphProperties** — what the graph is: one node per folder instance and per
  distinct URL, ids distinct, the last occurrence of a URL kept, one hierarchy
  link per non-root folder and per bookmark occurrence, m·(m−1)/2 tag links
  for a tag on m URLs, every link between existing nodes, hierarchy links before tag links.
- **App** — the copy-on-write tag update across the whole tree, the guard that
  gives an empty graph when there is no structure, and the upload check that
  rejects a file with no bookmarks.
- **BookmarkGenerator** — the Netscape bookmark file (NETSCAPE-Bookmark-file-1)
  writer, with the loops that build the text, proved equal to a declarative
  description of the document, plus the line count and the TAGS attribute.
- **SuggestionViewer** — the tag editor: the text it opens with, and the
  normalisation of edited text back into a tag list (split on commas, trim,
  lower-case, drop empty pieces, drop repeats keeping first occurrences).
- **BookmarkParser** — reading an export: each anchor, in document order,
  becomes a bookmark unless its link is absent, empty or a `data:` URL.
- **GeminiService** — the prompt, the missing-key check, accumulation of the
  streamed chunks, the ordered classification of a failed call, the stripping
  of a Markdown code fence and the checks on the final text.
- **Text**, **Seqs**, **Wrappers** — the JavaScript string operations the core
  uses (trim, toLowerCase, split, join, startsWith, includes, repeat), generic
  sequence facts, and Option/Result.

## Model

| member | source | states |
|---|---|---|
| GraphTransformer.GraphBuilder.constructor | utils/graphTransformer.ts:17-19 | the walk starts with no nodes, no links, an empty tag map and the first folder id |
| GraphTransformer.GraphBuilder.AddTagUse | utils/graphTransformer.ts:34-38 | a tag seen for the first time becomes the last key of the map with an empty list; the URL is then appended to that tag's list |
| GraphTransformer.GraphBuilder.AddBookmark | utils/graphTransformer.ts:31-39 | one bookmark adds its node, the containment link from its folder, and one tag-map entry per tag in order |
| GraphTransformer.GraphBuilder.AddBookmarks | utils/graphTransformer.ts:30-40 | a folder's bookmarks add their nodes, containment links and tag entries in order |
| GraphTransformer.GraphBuilder.AddFolder | utils/graphTransformer.ts:23-40 | a folder takes the next fresh id, adds its node, the link from its parent when it has one, and its bookmarks' contributions |
| GraphTransformer.GraphBuilder.VisitFolder | utils/graphTransformer.ts:22-45 | visiting one folder leaves the state of walking that one-folder forest: its own part, then its subfolders under its id |
| GraphTransformer.GraphBuilder.Traverse | utils/graphTransformer.ts:21-46 | walking a forest appends exactly the nodes, hierarchy links and tag entries of its depth-first enumeration and uses one id per folder instance |
| GraphTransformer.GraphBuilder.AddPairLinks | utils/graphTransformer.ts:52-58 | the nested index loops append the tag links (L[i], L[j]) for all i < j, row by row |
| GraphTransformer.GraphBuilder.AddTagLinks | utils/graphTransformer.ts:51-59 | the pair links of every tag are appended in the map's key-insertion order |
| GraphTransformer.UniqueNodes | utils/graphTransformer.ts:62 | keeps one node per id, in first-occurrence order of ids, holding the last node with that id |
| GraphTransformer.TransformToGraphData | utils/graphTransformer.ts:16-65 | the transform's nodes and links are the de-duplicated walk nodes and the hierarchy links followed by the tag links |
| GraphTransformer.VisitsLength | utils/graphTransformer.ts:21-45 | the walk meets every folder instance at every depth exactly once |
| GraphTransformer.VisitIds | utils/graphTransformer.ts:23-43 | folder ids are consecutive from the counter in walk order; each parent is the given one or an earlier folder |
| GraphTransformer.VisitsAppend | utils/graphTransformer.ts:22 | walking two forests in a row equals walking their concatenation |
| GraphTransformer.RecordFromEmpty | utils/graphTransformer.ts:19-38 | the tag map's keys are the tags in first-use order, and each key's list is the URLs tagged with it in walk order, repeats kept |
| GraphTransformer.TagOrderMembers | utils/graphTransformer.ts:35-38 | a tag is a key of the map exactly when some URL was recorded under it |
| GraphTransformer.FirstIdsSet | utils/graphTransformer.ts:62 | the de-duplicated key order holds exactly the ids that occur |
| GraphTransformer.WalkedStep | utils/graphTransformer.ts:22 | one more loop turn of the walk continues the walk of the prefix |
| GraphProperties.IdsMember | utils/graphTransformer.ts:62 | an id is among the nodes' ids exactly when some node carries it |
| GraphProperties.LastWithIdIsLast | utils/graphTransformer.ts:62 | the node kept for an id is the last node carrying it |
| GraphProperties.FirstIdsDistinct | utils/graphTransformer.ts:62 | the de-duplicated ids are pairwise distinct |
| GraphProperties.DedupByIdCorrect | utils/graphTransformer.ts:62 | de-duplication gives pairwise distinct ids, loses no id, and keeps for each id its last occurrence |
| GraphProperties.DedupKeepsLast | utils/graphTransformer.ts:62 | the last node of every id is in the result |
| GraphProperties.VisitsBookmarks | utils/graphTransformer.ts:30 | the walk meets every bookmark occurrence of the forest, in document order |
| GraphProperties.BookmarkNodesLast | utils/graphTransformer.ts:31-62 | a URL has a node exactly when a bookmark has it, and the kept node is that of its last bookmark |
| GraphProperties.RawNodesUrl | utils/graphTransformer.ts:31-62 | across the whole walk a URL node exists iff some bookmark has the URL, and the kept one is from the last occurrence |
| GraphProperties.RawNodesShape | utils/graphTransformer.ts:24-31 | every node the walk pushes is a folder node of a visit or the node of a bookmark met |
| GraphProperties.RawNodesFolder | utils/graphTransformer.ts:23-62 | each folder instance's node is present and is the one kept for its id |
| GraphProperties.FolderIdsDistinct | utils/graphTransformer.ts:23 | there is one visit per folder instance and their ids are pairwise distinct, even when folder names repeat |
| GraphProperties.GraphNodesCorrect | utils/graphTransformer.ts:24-62 | result ids are distinct; every folder instance has its node named after it; every URL has the node of its last bookmark; nothing else is a node |
| GraphProperties.GraphNodeIds | utils/graphTransformer.ts:24-62 | the result's ids are exactly the folder ids plus the distinct URLs |
| GraphProperties.PairRowsCount | utils/graphTransformer.ts:53-57 | the first n rows of the pair loop hold n·(2m−n−1)/2 links, for a list of m URLs |
| GraphProperties.PairRowsMember | utils/graphTransformer.ts:53-57 | a link is in the first n rows iff it is (L[i], L[j]) with i < n and i < j |
| GraphProperties.PairLinksCorrect | utils/graphTransformer.ts:52-58 | a URL list L of m entries gives exactly m·(m−1)/2 tag links, the pairs (L[i], L[j]) with i < j, and none when m ≤ 1 |
| GraphProperties.PairLinksSelfLink | utils/graphTransformer.ts:55 | a URL listed twice under one tag links to itself |
| GraphProperties.TagLinksOverByTag | utils/graphTransformer.ts:51-59 | the tag links are the pair links of each tag's URL list in key order |
| GraphProperties.UrlsTaggedOne | utils/graphTransformer.ts:34-38 | one bookmark records its URL under a tag as many times as it carries the tag |
| GraphProperties.UrlsTaggedBookmarks | utils/graphTransformer.ts:30-39 | a tag's URL list has one entry per tag occurrence, and holds exactly the URLs of bookmarks carrying it |
| GraphProperties.TagUsesOfVisits | utils/graphTransformer.ts:30-39 | the tag entries are those of the bookmarks met, in walk order |
| GraphProperties.TagLinksCorrect | utils/graphTransformer.ts:34-58 | tag links are pair links per tag; the tags with a list are exactly those used; each list has one entry per use and the URLs of the bookmarks carrying it |
| GraphProperties.ContainmentInto | utils/graphTransformer.ts:32 | a folder's containment links enter each URL once per bookmark with it |
| GraphProperties.HierarchyIntoVisits | utils/graphTransformer.ts:27-32 | a URL's incoming hierarchy links number its bookmark occurrences; a folder's number its child visits |
| GraphProperties.ChildVisitsNumbered | utils/graphTransformer.ts:26-28 | with consecutive ids, a folder has one incoming parent link when it has a parent and none otherwise |
| GraphProperties.VisitParents | utils/graphTransformer.ts:21-48 | a root visit's folder is a root folder; a child visit's parent is an earlier visit containing the folder among its subfolders |
| GraphProperties.GraphLinksKinds | utils/graphTransformer.ts:27-55 | the walk adds only hierarchy links and the pair step only tag links |
| GraphProperties.LinksOrdered | utils/graphTransformer.ts:48-59 | every hierarchy link comes before every tag link |
| GraphProperties.HierarchyIntoGraph | utils/graphTransformer.ts:48-59 | tag links add nothing to a node's incoming hierarchy links |
| GraphProperties.FolderIncoming | utils/graphTransformer.ts:26-28 | a non-root folder has exactly one incoming hierarchy link, a root folder none |
| GraphProperties.NumberedIncoming | utils/graphTransformer.ts:26-28 | the same count over any consecutively numbered walk from the roots |
| GraphProperties.ParentLinkPresent | utils/graphTransformer.ts:27 | the link from a folder's parent to it is in the result |
| GraphProperties.BookmarkLinksPlaced | utils/graphTransformer.ts:31-32 | each bookmark is linked from the id of the folder that holds it; every hierarchy link into a URL comes from a folder that holds a bookmark with that URL |
| GraphProperties.HierarchyLinksCorrect | utils/graphTransformer.ts:21-48 | folder ids follow walk order; each non-root folder has one incoming link from its containing earlier parent, roots none; a URL in k bookmark occurrences has k incoming links; every bookmark of a folder gets a link from that folder's id to its URL, and every hierarchy link into a URL starts at a folder holding a bookmark with that URL |
| GraphProperties.HierarchyLinkEnds | utils/graphTransformer.ts:24-62 | every hierarchy link joins two nodes of the result |
| GraphProperties.TagLinkEnds | utils/graphTransformer.ts:31-62 | every tag link joins two nodes of the result |
| GraphProperties.LinkEndpoints | utils/graphTransformer.ts:24-62 | every link's source and target is the id of a node of the result |
| GraphProperties.EmptyForest | utils/graphTransformer.ts:16-64 | an empty forest gives no nodes and no links |
| App.UpdateBookmark | App.tsx:155-165 | a bookmark with the URL gets the new tags with title and URL unchanged; any other is returned as it is |
| App.UpdateBookmarks | App.tsx:154-156 | over a list of bookmarks, each keeps its title and URL; those with the URL carry the new tags and the others keep theirs |
| App.UpdateStructure | App.tsx:169 | an absent structure stays absent; a present one keeps its folders, names and bookmarks in order, and its bookmark occurrences are the old ones with the URL's tags replaced |
| App.UpdateKeepsShape | App.tsx:158-163 | the same folders in the same order with the same names and the same bookmarks, apart from tags |
| App.UpdateAllBookmarks | App.tsx:153-166 | every bookmark occurrence at every depth is updated: those with the URL carry the new tags, others unchanged |
| App.UpdateAbsentUrl | App.tsx:153-166 | when no bookmark has the URL, the result equals the input |
| App.UpdateOverwrites | App.tsx:156 | two updates of one URL equal the second alone |
| App.UpdateIdempotent | App.tsx:156 | repeating an update changes nothing |
| App.NoStructureNoGraph | App.tsx:33-169 | an absent or empty structure stays so under an update and gives the empty graph |
| App.CheckParsed | App.tsx:71-74 | an upload is rejected, with the "no bookmarks found" message, exactly when no bookmark was read; otherwise the bookmarks pass through |
| App.UploadRejected | App.tsx:70-74 | an upload is rejected exactly when none of the file's anchors has a link that is kept |
| BookmarkGenerator.IndentSpaces | utils/bookmarkGenerator.ts:20-37 | the indent at level n is exactly 4·n spaces |
| BookmarkGenerator.GenerateFolderHtml | utils/bookmarkGenerator.ts:19-34 | the block is the heading and list-opening lines, the bookmark lines and the subfolder blocks one level deeper, and the list-closing line at the folder's indent |
| BookmarkGenerator.GenerateBookmarksHtml | utils/bookmarkGenerator.ts:3-55 | the file is the fixed header, the root folders' blocks at level 1 in order, and the footer |
| BookmarkGenerator.EmptyDocument | utils/bookmarkGenerator.ts:45-55 | an empty forest gives the header followed by the footer |
| BookmarkGenerator.TagsAttributePresent | utils/bookmarkGenerator.ts:38-40 | the TAGS attribute is written exactly when tags are present and non-empty |
| BookmarkGenerator.TagsAttributeRoundTrip | utils/bookmarkGenerator.ts:38-39 | the attribute's value, split on commas, gives back the tags when no tag contains a comma |
| BookmarkGenerator.BookmarkOneLine | utils/bookmarkGenerator.ts:36-42 | a bookmark whose fields hold no line end is written as exactly one line |
| BookmarkGenerator.BookmarksLines | utils/bookmarkGenerator.ts:24-26 | a folder's bookmarks take one line each |
| BookmarkGenerator.FolderLines | utils/bookmarkGenerator.ts:19-34 | a folder block has three lines per folder in it and one per bookmark in it |
| BookmarkGenerator.FoldersLines | utils/bookmarkGenerator.ts:28-30 | the same line count holds for a list of folders |
| BookmarkGenerator.DocumentLines | utils/bookmarkGenerator.ts:45-55 | the file has the header's lines, three per folder, one per bookmark and one for the footer |
| SuggestionViewer.EditBuffer | components/SuggestionViewer.tsx:27 | a bookmark without tags opens the editor on empty text |
| SuggestionViewer.CleanIsClean | components/SuggestionViewer.tsx:36 | a cleaned piece has no surrounding whitespace, no capitals and no comma it did not have |
| SuggestionViewer.Cleaned | components/SuggestionViewer.tsx:36 | each piece is trimmed and lower-cased in place |
| SuggestionViewer.CleanedClean | components/SuggestionViewer.tsx:36 | every cleaned piece is trimmed and lower-case, and comma-free when the pieces were |
| SuggestionViewer.NonEmpty | components/SuggestionViewer.tsx:36 | the filter keeps exactly the non-empty pieces |
| SuggestionViewer.Dedup | components/SuggestionViewer.tsx:37 | the same values without repeats, in order of first occurrence |
| SuggestionViewer.NormalizeTags | components/SuggestionViewer.tsx:36-37 | the tags are exactly the non-empty cleaned pieces of the text, each trimmed, lower-case and comma-free, with no repeats |
| SuggestionViewer.NonEmptyFirst | components/SuggestionViewer.tsx:36 | dropping empty pieces keeps the relative order of first occurrences |
| SuggestionViewer.NormalizeKeepsFirstOrder | components/SuggestionViewer.tsx:36-37 | the tags follow the order of their first occurrence among the cleaned pieces |
| SuggestionViewer.JoinPadded | components/SuggestionViewer.tsx:27-36 | joining with comma-space is joining with a comma pieces that carry a leading space |
| SuggestionViewer.CleanSpaced | components/SuggestionViewer.tsx:36 | cleaning such pieces gives back clean tags |
| SuggestionViewer.NormalizeJoined | components/SuggestionViewer.tsx:27-37 | clean tags (non-empty, trimmed, lower-case, comma-free, distinct) joined with comma-space normalise back to themselves |
| SuggestionViewer.EditRoundTrip | components/SuggestionViewer.tsx:27-37 | saving the text the editor opens with gives back a bookmark's clean tags unchanged |
| SuggestionViewer.NormalizeIdempotent | components/SuggestionViewer.tsx:36-37 | normalising the comma-join of a normalised list gives the same list |
| BookmarkParser.Title | utils/bookmarkParser.ts:11 | the title is the trimmed text when that is non-empty, "No Title" otherwise; never empty |
| BookmarkParser.ParseBookmarksHtml | utils/bookmarkParser.ts:4-19 | one pass over the anchors yields the bookmarks of the kept anchors in document order |
| BookmarkParser.ParsedAppend | utils/bookmarkParser.ts:10-16 | reading a document in two parts reads each part in turn |
| BookmarkParser.ParsedLength | utils/bookmarkParser.ts:10-16 | never more bookmarks than anchors |
| BookmarkParser.ParsedEntries | utils/bookmarkParser.ts:11-14 | every bookmark comes from a kept anchor, has the href verbatim as URL, a trimmed non-empty title and no tags |
| BookmarkParser.KeptAnchorRead | utils/bookmarkParser.ts:13-14 | every anchor with a present, non-empty, non-`data:` link gives a bookmark |
| BookmarkParser.NothingRead | utils/bookmarkParser.ts:10-18 | nothing is read exactly when no anchor is kept |
| BookmarkParser.KeptIff | utils/bookmarkParser.ts:12-13 | a present link is kept exactly when it is non-empty and its first five characters are not exactly `data:` |
| BookmarkParser.AbsentLinkDropped | utils/bookmarkParser.ts:12-13 | an anchor without a link is never kept |
| BookmarkParser.DataSchemeCaseSensitive | utils/bookmarkParser.ts:13 | two instances of the case-sensitive prefix test: an upper-case `DATA:` link is kept, a `data:` link dropped |
| GeminiService.BookmarkLines | services/geminiService.ts:89 | one list line per bookmark, in input order |
| GeminiService.LineUnbroken | services/geminiService.ts:89 | a bookmark line holds no line end when title and URL hold none |
| GeminiService.BookmarkListLines | services/geminiService.ts:89 | the list, split at line ends, is the bookmarks' lines in order |
| GeminiService.PromptHoldsList | services/geminiService.ts:90-101 | the prompt is the fixed introduction, the bookmark list and the fixed closing request, so cutting both off gives the list back, and with single-line titles and URLs its lines are the bookmarks' lines in order |
| GeminiService.ClassifyError | services/geminiService.ts:136-148 | a failed call is reported with one of four messages, and a thrown non-Error value as unexpected |
| GeminiService.MessagesDistinct | services/geminiService.ts:139-148 | the four messages differ, so the report tells the cases apart |
| GeminiService.ClassificationOrder | services/geminiService.ts:137-148 | the invalid-key test wins, then rate limit, then billing or project, and anything else is unexpected, each as an iff |
| GeminiService.ClassificationIgnoresCase | services/geminiService.ts:137 | a message and its lower-cased form are classified alike |
| GeminiService.AccumulateChunks | services/geminiService.ts:127-133 | exactly the chunks with text are handed on, in order, and the accumulated text is their concatenation |
| GeminiService.DeliveredIsAllText | services/geminiService.ts:127-133 | skipping chunks without text loses nothing of the stream's text, and no handed chunk is empty |
| GeminiService.PostProcess | services/geminiService.ts:151-167 | every failure gives the one generic format message; success exactly when the stripped text is not blank and parses as an array, whose elements are returned as they are |
| GeminiService.FenceRoundTrip | services/geminiService.ts:153 | a body wrapped in an opening and a closing fence with surrounding whitespace comes back unchanged |
| GeminiService.OpenFenceStripped | services/geminiService.ts:153 | a leading opening fence is removed with the whitespace after it |
| GeminiService.CloseFenceStripped | services/geminiService.ts:153 | a closing fence followed only by whitespace is removed with that whitespace |
| GeminiService.NoFenceUnchanged | services/geminiService.ts:153 | text with no opening fence and not ending in a backtick is unchanged |
| GeminiService.GetBookmarkSuggestionsStream | services/geminiService.ts:104-168 | without a key the call fails at once and nothing is handed on; otherwise the text chunks are handed on and the outcome is the classified failure or the post-processed text |
| GeminiService.OutcomeMessages | services/geminiService.ts:109-167 | every rejection carries one of the service's own six messages |
| GeminiService.NoKeyNoCall | services/geminiService.ts:109-111 | an empty key fails with the "not set" message whatever the model would answer |
| Text.TrimIsTrimmed | utils/bookmarkParser.ts:11 | trimming gives text without surrounding whitespace and leaves such text alone |
| Text.LowerIdempotent | components/SuggestionViewer.tsx:36 | lower-casing twice is lower-casing once |
| Text.SplitJoin | components/SuggestionViewer.tsx:36 | splitting a comma-join of comma-free pieces gives the pieces back |
| Text.JoinSplit | components/SuggestionViewer.tsx:36 | splitting the edit text on commas loses nothing but the commas: joining the pieces gives the text back |

## Left out

- Folder ids are `folder-<name>-<Math.random()>` strings in the source. The model draws them from a counter, and a node id is either a folder number or a URL, so a folder id never equals a URL. The source makes such a clash only astronomically unlikely.
- The source guards the recursion on `folder.subfolders` being present. The data model makes `subfolders` required, as types.ts declares it, so the guard always holds.
- `trim`, `toLowerCase` and the regular expression's `\s` are modelled over ASCII: space, tab, line feed, vertical tab, form feed and carriage return are whitespace, and A–Z are the capitals. Unicode whitespace and case mapping are not modelled.
- The browser's HTML parser, the file reader and the download are not part of this model. The parser's input is the sequence of anchors, each with its text content and `href` attribute, both optional.
- `JSON.parse` is a function parameter returning a value or an error. A parsed value is only classified as an array or as something else. The folders in the array are not checked, and neither does the source check them.
- The model client is a function parameter. It maps the prompt to the chunk texts it streams and, optionally, the error that ends the stream. The client's construction, the model name, the `responseSchema` configuration and the asynchronous iteration are not modelled.
- `onChunk` is modelled as the sequence of texts handed to it. What the callback does is not modelled.
- Console logging is left out.
- The React components, hooks and UI state around the modelled functions are left out, and so is the graph drawing.
- The `!apiKey` test is modelled as "the key is empty"; an absent key is not a case, because the parameter is a string.
- BookmarkGenerator.DocumentLines: the header's own line count is left as `LineCount(Header)` rather than the number 8 that the eight header lines at utils/bookmarkGenerator.ts:4-11 give, because checking that the long header literals hold no other line end exceeds the verifier's resource limit. It also holds only for names, titles, URLs and tags without line ends, because the writer inserts them verbatim.
- BookmarkGenerator.TagsAttributeRoundTrip: holds only for tags without commas, because the writer joins tags with a bare comma and escapes nothing.
- GeminiService.FenceRoundTrip: stated for a body that does not start with whitespace, because the opening-fence rule also consumes leading whitespace of the body.
- SuggestionViewer.NormalizeJoined and SuggestionViewer.EditRoundTrip hold only for tags that are already clean, since normalisation changes any other list.
- SuggestionViewer.EditBuffer: its own contract states only that a bookmark without tags opens on empty text; what the full text means is stated by SuggestionViewer.EditRoundTrip.
