/**
 * The tree-to-graph transform (utils/graphTransformer.ts): a depth-first walk
 * of the folder forest that emits one node per folder instance and one node per
 * bookmark occurrence, hierarchy links from each folder to its children, then
 * tag links between every pair of URLs sharing a tag, and finally keeps one node
 * per id.
 *
 * The random component of a folder id is modelled as a counter that hands out a
 * fresh number for every folder instance; the walk's output is specified by the
 * functions below and the walk itself is the class GraphBuilder.
 */
module GraphTransformer {
  import opened Wrappers
  import opened Types
  import opened Seqs

  /** A node id: a folder instance's fresh number, or a bookmark's URL. */
  datatype NodeId = FolderId(n: nat) | UrlId(url: string)

  datatype NodeType = FolderNode | BookmarkNode

  datatype GraphNode = GraphNode(id: NodeId, name: string, nodeType: NodeType, url: Option<string>)

  datatype LinkType = HierarchyLink | TagLink

  datatype GraphLink = GraphLink(source: NodeId, target: NodeId, linkType: LinkType)

  /** One tag of one bookmark occurrence: an entry pushed onto the tag map. */
  datatype TagUse = TagUse(tag: string, url: string)

  /** One step of the walk: a folder instance, the id it was given and its parent's id. */
  datatype Visit = Visit(id: nat, parent: Option<nat>, folder: BookmarkFolder)

  // ---------------------------------------------------------------------------
  // Generic sequence helpers

  function FlatMap<A, B>(xs: seq<A>, f: A -> seq<B>): seq<B>
  {
    if xs == [] then [] else f(xs[0]) + FlatMap(xs[1..], f)
  }

  lemma {:induction false} FlatMapAppend<A, B>(xs: seq<A>, ys: seq<A>, f: A -> seq<B>)
    ensures FlatMap(xs + ys, f) == FlatMap(xs, f) + FlatMap(ys, f)
  {
    if xs == [] {
      assert xs + ys == ys;
    } else {
      assert (xs + ys)[1..] == xs[1..] + ys;
      FlatMapAppend(xs[1..], ys, f);
    }
  }

  lemma FlatMapSingle<A, B>(x: A, f: A -> seq<B>)
    ensures FlatMap([x], f) == f(x)
  {
    assert [x][1..] == [];
  }

  // ---------------------------------------------------------------------------
  // The depth-first walk

  /**
   * The folder instances of `fs` in the order the walk meets them, each with
   * the id the counter gives it (starting from `next`) and its parent's id.
   */
  function Visits(fs: seq<BookmarkFolder>, parent: Option<nat>, next: nat): (vs: seq<Visit>)
  {
    if fs == [] then []
    else
      [Visit(next, parent, fs[0])]
      + Visits(fs[0].subfolders, Some(next), next + 1)
      + Visits(fs[1..], parent, next + 1 + FolderCount(fs[0].subfolders))
  }

  /** One visit per folder instance. */
  lemma {:induction false} VisitsLength(fs: seq<BookmarkFolder>, parent: Option<nat>, next: nat)
    ensures |Visits(fs, parent, next)| == FolderCount(fs)
    decreases FolderCount(fs)
  {
    if fs != [] {
      VisitsLength(fs[0].subfolders, Some(next), next + 1);
      VisitsLength(fs[1..], parent, next + 1 + FolderCount(fs[0].subfolders));
    }
  }

  /**
   * The counter gives the visits consecutive ids, so folder ids are pairwise
   * distinct whatever the folder names; every parent is the given one or an
   * earlier visit.
   */
  predicate NumberedFrom(vs: seq<Visit>, parent: Option<nat>, next: nat)
  {
    forall k :: 0 <= k < |vs| ==>
      && vs[k].id == next + k
      && (vs[k].parent == parent || (vs[k].parent.Some? && next <= vs[k].parent.value < next + k))
  }

  lemma {:induction false} VisitIds(fs: seq<BookmarkFolder>, parent: Option<nat>, next: nat)
    ensures NumberedFrom(Visits(fs, parent, next), parent, next)
    decreases FolderCount(fs)
  {
    if fs != [] {
      var c0 := FolderCount(fs[0].subfolders);
      var a := Visits(fs[0].subfolders, Some(next), next + 1);
      var b := Visits(fs[1..], parent, next + 1 + c0);
      var vs := Visits(fs, parent, next);
      assert vs == [Visit(next, parent, fs[0])] + a + b;
      VisitIds(fs[0].subfolders, Some(next), next + 1);
      VisitIds(fs[1..], parent, next + 1 + c0);
      VisitsLength(fs[0].subfolders, Some(next), next + 1);
      forall k | 0 <= k < |vs|
        ensures vs[k].id == next + k
        ensures vs[k].parent == parent || (vs[k].parent.Some? && next <= vs[k].parent.value < next + k)
      {
        if k == 0 {
        } else if k <= |a| {
          assert vs[k] == a[k - 1];
        } else {
          assert vs[k] == b[k - 1 - |a|];
        }
      }
    }
  }

  lemma {:induction false} VisitsAppend(a: seq<BookmarkFolder>, b: seq<BookmarkFolder>, parent: Option<nat>, next: nat)
    ensures Visits(a + b, parent, next) == Visits(a, parent, next) + Visits(b, parent, next + FolderCount(a))
  {
    if a == [] {
      assert a + b == b;
    } else {
      AppendFront(a, b);
      VisitsAppend(a[1..], b, parent, next + 1 + FolderCount(a[0].subfolders));
    }
  }

  function FolderNodeOf(v: Visit): GraphNode
  {
    GraphNode(FolderId(v.id), v.folder.folderName, FolderNode, None)
  }

  function BookmarkNodeOf(b: Bookmark): GraphNode
  {
    GraphNode(UrlId(b.url), b.title, BookmarkNode, Some(b.url))
  }

  function BookmarkNodes(bs: seq<Bookmark>): seq<GraphNode>
  {
    seq(|bs|, i requires 0 <= i < |bs| => BookmarkNodeOf(bs[i]))
  }

  /** The nodes pushed while visiting one folder: its own node, then one per bookmark. */
  function VisitNodes(v: Visit): seq<GraphNode>
  {
    [FolderNodeOf(v)] + BookmarkNodes(v.folder.bookmarks)
  }

  function ParentLink(v: Visit): seq<GraphLink>
  {
    if v.parent.Some? then [GraphLink(FolderId(v.parent.value), FolderId(v.id), HierarchyLink)] else []
  }

  function ContainmentLinks(id: nat, bs: seq<Bookmark>): seq<GraphLink>
  {
    seq(|bs|, i requires 0 <= i < |bs| => GraphLink(FolderId(id), UrlId(bs[i].url), HierarchyLink))
  }

  /** The links pushed while visiting one folder: from its parent, then to each bookmark. */
  function VisitLinks(v: Visit): seq<GraphLink>
  {
    ParentLink(v) + ContainmentLinks(v.id, v.folder.bookmarks)
  }

  function BookmarkTagUses(b: Bookmark): seq<TagUse>
  {
    seq(|TagsOf(b)|, i requires 0 <= i < |TagsOf(b)| => TagUse(TagsOf(b)[i], b.url))
  }

  function VisitTagUses(v: Visit): seq<TagUse>
  {
    FlatMap(v.folder.bookmarks, BookmarkTagUses)
  }

  function VisitBookmarks(v: Visit): seq<Bookmark>
  {
    v.folder.bookmarks
  }

  /** All nodes pushed by the walk, duplicates included. */
  function RawNodes(vs: seq<Visit>): seq<GraphNode>
  {
    FlatMap(vs, VisitNodes)
  }

  /** All hierarchy links pushed by the walk. */
  function HierarchyLinks(vs: seq<Visit>): seq<GraphLink>
  {
    FlatMap(vs, VisitLinks)
  }

  /** All (tag, URL) entries pushed onto the tag map by the walk. */
  function TagUses(vs: seq<Visit>): seq<TagUse>
  {
    FlatMap(vs, VisitTagUses)
  }

  // ---------------------------------------------------------------------------
  // The tag map: a JavaScript Map from tag to URL list, iterated in key-insertion order

  /** The tag map's state: its keys in insertion order, and the URL list under each key. */
  datatype TagIndex = TagIndex(order: seq<string>, urls: map<string, seq<string>>)

  const EmptyTagIndex := TagIndex([], map[])

  /** Adds the URL to the end of the tag's list, creating the list (and listing the tag last) on first use. */
  function PushTag(ix: TagIndex, u: TagUse): TagIndex
  {
    var ix1 := if u.tag in ix.urls then ix else TagIndex(ix.order + [u.tag], ix.urls[u.tag := []]);
    TagIndex(ix1.order, ix1.urls[u.tag := ix1.urls[u.tag] + [u.url]])
  }

  /** The tag map after pushing the entries `us`, in order, onto `ix`. */
  function RecordUses(ix: TagIndex, us: seq<TagUse>): TagIndex
  {
    if us == [] then ix else PushTag(RecordUses(ix, us[..|us| - 1]), us[|us| - 1])
  }

  lemma {:induction false} RecordAppend(ix: TagIndex, a: seq<TagUse>, b: seq<TagUse>)
    ensures RecordUses(ix, a + b) == RecordUses(RecordUses(ix, a), b)
  {
    if b == [] {
      assert a + b == a;
    } else {
      assert (a + b)[..|a + b| - 1] == a + b[..|b| - 1];
      RecordAppend(ix, a, b[..|b| - 1]);
    }
  }

  /** The distinct tags of `us`, in order of first use. */
  function TagOrder(us: seq<TagUse>): seq<string>
  {
    if us == [] then []
    else
      var prev := TagOrder(us[..|us| - 1]);
      if us[|us| - 1].tag in prev then prev else prev + [us[|us| - 1].tag]
  }

  /** The URLs pushed under `tag`, in order, repeats kept. */
  function UrlsTagged(us: seq<TagUse>, tag: string): seq<string>
  {
    if us == [] then []
    else UrlsTagged(us[..|us| - 1], tag) + (if us[|us| - 1].tag == tag then [us[|us| - 1].url] else [])
  }

  /**
   * Starting from an empty map, the keys are the distinct tags in order of first
   * use, and each key holds exactly the URLs pushed under it, in order.
   */
  lemma {:induction false} RecordFromEmpty(us: seq<TagUse>)
    ensures RecordUses(EmptyTagIndex, us).order == TagOrder(us)
    ensures forall t :: t in RecordUses(EmptyTagIndex, us).urls <==> t in TagOrder(us)
    ensures forall t :: t in TagOrder(us) ==> RecordUses(EmptyTagIndex, us).urls[t] == UrlsTagged(us, t)
  {
    if us != [] {
      RecordFromEmpty(us[..|us| - 1]);
      TagOrderMembers(us[..|us| - 1], us[|us| - 1].tag);
    }
  }

  lemma {:induction false} TagOrderMembers(us: seq<TagUse>, tag: string)
    ensures tag in TagOrder(us) <==> UrlsTagged(us, tag) != []
  {
    if us != [] {
      TagOrderMembers(us[..|us| - 1], tag);
    }
  }

  /** Row `i` of the pair loop: (L[i], L[j]) for every j > i, in order. */
  function PairRow(urls: seq<string>, i: nat): seq<GraphLink>
    requires i < |urls|
  {
    seq(|urls| - i - 1, k requires 0 <= k < |urls| - i - 1 => GraphLink(UrlId(urls[i]), UrlId(urls[i + 1 + k]), TagLink))
  }

  /** The first `n` rows of the pair loop. */
  function PairRows(urls: seq<string>, n: nat): seq<GraphLink>
    requires n <= |urls|
  {
    if n == 0 then [] else PairRows(urls, n - 1) + PairRow(urls, n - 1)
  }

  /** The tag links for one URL list: (L[i], L[j]) for every i < j. */
  function PairLinks(urls: seq<string>): seq<GraphLink>
  {
    PairRows(urls, |urls|)
  }

  /** The tag links for the tags `keys` of the map `m`, in key order. */
  function TagLinksOver(keys: seq<string>, m: map<string, seq<string>>): seq<GraphLink>
    requires forall t :: t in keys ==> t in m
  {
    if keys == [] then []
    else TagLinksOver(keys[..|keys| - 1], m) + PairLinks(m[keys[|keys| - 1]])
  }

  /** Every tag link the pair step emits once the entries `us` are in the tag map. */
  function TagLinks(us: seq<TagUse>): seq<GraphLink>
  {
    var ix := RecordUses(EmptyTagIndex, us);
    RecordFromEmpty(us);
    TagLinksOver(ix.order, ix.urls)
  }

  // ---------------------------------------------------------------------------
  // Keeping one node per id: the first position of each id, holding the last node with that id

  /** The ids of `ns` as a set. */
  function Ids(ns: seq<GraphNode>): set<NodeId>
  {
    if ns == [] then {} else Ids(ns[..|ns| - 1]) + {ns[|ns| - 1].id}
  }

  /** The distinct ids of `ns` in order of first occurrence: the key order of the Map. */
  function FirstIds(ns: seq<GraphNode>): seq<NodeId>
  {
    if ns == [] then []
    else
      var prev := FirstIds(ns[..|ns| - 1]);
      if ns[|ns| - 1].id in prev then prev else prev + [ns[|ns| - 1].id]
  }

  /** The last node of `ns` with id `id`: the value the Map keeps for that key. */
  function LastWithId(ns: seq<GraphNode>, id: NodeId): GraphNode
    requires id in Ids(ns)
  {
    if ns[|ns| - 1].id == id then ns[|ns| - 1] else LastWithId(ns[..|ns| - 1], id)
  }

  lemma {:induction false} FirstIdsSet(ns: seq<GraphNode>)
    ensures forall id :: id in FirstIds(ns) <==> id in Ids(ns)
  {
    if ns != [] {
      FirstIdsSet(ns[..|ns| - 1]);
    }
  }

  function DedupById(ns: seq<GraphNode>): seq<GraphNode>
  {
    var keys := FirstIds(ns);
    FirstIdsSet(ns);
    seq(|keys|, k requires 0 <= k < |keys| => LastWithId(ns, keys[k]))
  }

  // ---------------------------------------------------------------------------
  // The whole transform, as values

  function GraphNodes(structure: seq<BookmarkFolder>): seq<GraphNode>
  {
    DedupById(RawNodes(Visits(structure, None, 0)))
  }

  function GraphLinks(structure: seq<BookmarkFolder>): seq<GraphLink>
  {
    var vs := Visits(structure, None, 0);
    HierarchyLinks(vs) + TagLinks(TagUses(vs))
  }

  /** Extending the visited prefix of a folder's bookmarks by one bookmark. */
  lemma BookmarkPrefixStep(bs: seq<Bookmark>, j: nat, folderId: nat)
    requires j < |bs|
    ensures BookmarkNodes(bs[..j + 1]) == BookmarkNodes(bs[..j]) + [BookmarkNodeOf(bs[j])]
    ensures ContainmentLinks(folderId, bs[..j + 1])
      == ContainmentLinks(folderId, bs[..j]) + [GraphLink(FolderId(folderId), UrlId(bs[j].url), HierarchyLink)]
    ensures FlatMap(bs[..j + 1], BookmarkTagUses) == FlatMap(bs[..j], BookmarkTagUses) + BookmarkTagUses(bs[j])
  {
    assert bs[..j + 1] == bs[..j] + [bs[j]];
    FlatMapAppend(bs[..j], [bs[j]], BookmarkTagUses);
    FlatMapSingle(bs[j], BookmarkTagUses);
  }

  /** Extending the visited prefix of a forest by one folder appends that folder's visits. */
  lemma VisitsStep(fs: seq<BookmarkFolder>, i: nat, parent: Option<nat>, next: nat, id: nat)
    requires i < |fs| && id == next + FolderCount(fs[..i])
    ensures FolderCount(fs[..i + 1]) == FolderCount(fs[..i]) + FolderCount([fs[i]])
    ensures Visits(fs[..i + 1], parent, next) == Visits(fs[..i], parent, next) + Visits([fs[i]], parent, id)
  {
    assert fs[..i + 1] == fs[..i] + [fs[i]];
    VisitsAppend(fs[..i], [fs[i]], parent, next);
    FolderCountAppend(fs[..i], [fs[i]]);
  }


  /** The visits of one folder: itself, then its subtree numbered from the next id. */
  lemma VisitsOne(f: BookmarkFolder, parent: Option<nat>, id: nat, next: nat)
    requires next == id + 1
    ensures Visits([f], parent, id) == [Visit(id, parent, f)] + Visits(f.subfolders, Some(id), next)
  {
    assert [f][1..] == [];
  }

  /** The nodes of one folder's visits: its own, then its subtree's. */
  lemma OneFolderNodes(o: seq<GraphNode>, n1: seq<GraphNode>, n2: seq<GraphNode>,
                       f: BookmarkFolder, parent: Option<nat>, id: nat, next: nat)
    requires next == id + 1
    requires n1 == o + VisitNodes(Visit(id, parent, f))
    requires n2 == n1 + RawNodes(Visits(f.subfolders, Some(id), next))
    ensures n2 == o + RawNodes(Visits([f], parent, id))
  {
    var v := Visit(id, parent, f);
    var sub := Visits(f.subfolders, Some(id), next);
    VisitsOne(f, parent, id, next);
    FlatMapAppend([v], sub, VisitNodes);
    FlatMapSingle(v, VisitNodes);
    AppendStep(o, n1, n2, VisitNodes(v), RawNodes(sub), RawNodes(Visits([f], parent, id)));
  }

  /** The hierarchy links of one folder's visits: its own, then its subtree's. */
  lemma OneFolderLinks(o: seq<GraphLink>, l1: seq<GraphLink>, l2: seq<GraphLink>,
                       f: BookmarkFolder, parent: Option<nat>, id: nat, next: nat)
    requires next == id + 1
    requires l1 == o + VisitLinks(Visit(id, parent, f))
    requires l2 == l1 + HierarchyLinks(Visits(f.subfolders, Some(id), next))
    ensures l2 == o + HierarchyLinks(Visits([f], parent, id))
  {
    var v := Visit(id, parent, f);
    var sub := Visits(f.subfolders, Some(id), next);
    VisitsOne(f, parent, id, next);
    FlatMapAppend([v], sub, VisitLinks);
    FlatMapSingle(v, VisitLinks);
    AppendStep(o, l1, l2, VisitLinks(v), HierarchyLinks(sub), HierarchyLinks(Visits([f], parent, id)));
  }

  /** One turn of `traverse`'s loop, on the node array. */
  lemma TraverseNodesStep(o: seq<GraphNode>, n0: seq<GraphNode>, n1: seq<GraphNode>,
                          fs: seq<BookmarkFolder>, i: nat, parent: Option<nat>, next: nat, id: nat)
    requires i < |fs| && id == next + FolderCount(fs[..i])
    requires n0 == o + RawNodes(Visits(fs[..i], parent, next))
    requires n1 == n0 + RawNodes(Visits([fs[i]], parent, id))
    ensures n1 == o + RawNodes(Visits(fs[..i + 1], parent, next))
  {
    var before := Visits(fs[..i], parent, next);
    var one := Visits([fs[i]], parent, id);
    VisitsStep(fs, i, parent, next, id);
    FlatMapAppend(before, one, VisitNodes);
    AppendStep(o, n0, n1, RawNodes(before), RawNodes(one), RawNodes(Visits(fs[..i + 1], parent, next)));
  }

  /** One turn of `traverse`'s loop, on the link array. */
  lemma TraverseLinksStep(o: seq<GraphLink>, l0: seq<GraphLink>, l1: seq<GraphLink>,
                          fs: seq<BookmarkFolder>, i: nat, parent: Option<nat>, next: nat, id: nat)
    requires i < |fs| && id == next + FolderCount(fs[..i])
    requires l0 == o + HierarchyLinks(Visits(fs[..i], parent, next))
    requires l1 == l0 + HierarchyLinks(Visits([fs[i]], parent, id))
    ensures l1 == o + HierarchyLinks(Visits(fs[..i + 1], parent, next))
  {
    var before := Visits(fs[..i], parent, next);
    var one := Visits([fs[i]], parent, id);
    VisitsStep(fs, i, parent, next, id);
    FlatMapAppend(before, one, VisitLinks);
    AppendStep(o, l0, l1, HierarchyLinks(before), HierarchyLinks(one), HierarchyLinks(Visits(fs[..i + 1], parent, next)));
  }

  /** The tag map after one folder's visits, as `traverse` records them. */
  lemma OneFolderTags(o: TagIndex, t1: TagIndex, t2: TagIndex, f: BookmarkFolder, parent: Option<nat>, id: nat, next: nat)
    requires next == id + 1
    requires t1 == RecordUses(o, VisitTagUses(Visit(id, parent, f)))
    requires t2 == RecordUses(t1, TagUses(Visits(f.subfolders, Some(id), next)))
    ensures t2 == RecordUses(o, TagUses(Visits([f], parent, id)))
  {
    var v := Visit(id, parent, f);
    var sub := Visits(f.subfolders, Some(id), next);
    VisitsOne(f, parent, id, next);
    FlatMapAppend([v], sub, VisitTagUses);
    FlatMapSingle(v, VisitTagUses);
    RecordAppend(o, VisitTagUses(v), TagUses(sub));
  }

  /** One turn of `traverse`'s loop, on the tag map. */
  lemma TraverseTagsStep(o: TagIndex, t0: TagIndex, t1: TagIndex, fs: seq<BookmarkFolder>, i: nat,
                         parent: Option<nat>, next: nat, id: nat)
    requires i < |fs| && id == next + FolderCount(fs[..i])
    requires t0 == RecordUses(o, TagUses(Visits(fs[..i], parent, next)))
    requires t1 == RecordUses(t0, TagUses(Visits([fs[i]], parent, id)))
    ensures t1 == RecordUses(o, TagUses(Visits(fs[..i + 1], parent, next)))
  {
    var before := Visits(fs[..i], parent, next);
    var one := Visits([fs[i]], parent, id);
    VisitsStep(fs, i, parent, next, id);
    FlatMapAppend(before, one, VisitTagUses);
    RecordAppend(o, TagUses(before), TagUses(one));
  }

  /** What `traverse` updates, as one value: nodes, links, tag map and the next folder id. */
  datatype WalkState = WalkState(nodes: seq<GraphNode>, links: seq<GraphLink>, tags: TagIndex, next: nat)

  /**
   * The state after walking `fs` under `parent` from `s`: the folders' visits
   * appended to the nodes and links, recorded in the tag map, and one id used
   * per folder instance.
   */
  function Walked(s: WalkState, fs: seq<BookmarkFolder>, parent: Option<nat>): WalkState
  {
    var vs := Visits(fs, parent, s.next);
    WalkState(s.nodes + RawNodes(vs), s.links + HierarchyLinks(vs), RecordUses(s.tags, TagUses(vs)), s.next + FolderCount(fs))
  }

  /** One turn of `traverse`'s loop: walking one more folder continues the walk of the prefix. */
  lemma WalkedStep(s: WalkState, fs: seq<BookmarkFolder>, i: nat, parent: Option<nat>)
    requires i < |fs|
    ensures Walked(Walked(s, fs[..i], parent), [fs[i]], parent) == Walked(s, fs[..i + 1], parent)
  {
    var mid := Walked(s, fs[..i], parent);
    var one := Walked(mid, [fs[i]], parent);
    FolderCountStep(fs, i);
    TraverseNodesStep(s.nodes, mid.nodes, one.nodes, fs, i, parent, s.next, mid.next);
    TraverseLinksStep(s.links, mid.links, one.links, fs, i, parent, s.next, mid.next);
    TraverseTagsStep(s.tags, mid.tags, one.tags, fs, i, parent, s.next, mid.next);
  }

  // ---------------------------------------------------------------------------
  // The walk as the source runs it

  /**
   * The state the closure `traverse` updates: the node and link arrays, the tag
   * map with its key order, and the counter standing for the random part of
   * folder ids.
   */
  class GraphBuilder {
    var nodes: seq<GraphNode>
    var links: seq<GraphLink>
    var tagMap: map<string, seq<string>>
    var tagOrder: seq<string>
    var nextId: nat

    /** The tag map with its key order. */
    function Tags(): TagIndex
      reads this
    {
      TagIndex(tagOrder, tagMap)
    }

    /** Everything `traverse` updates. */
    function State(): WalkState
      reads this
    {
      WalkState(nodes, links, Tags(), nextId)
    }

    constructor ()
      ensures nodes == [] && links == [] && Tags() == EmptyTagIndex && nextId == 0
    {
      nodes, links, tagMap, tagOrder, nextId := [], [], map[], [], 0;
    }

    /** Adds the URL to the end of the tag's list in the map, creating the list on the tag's first use. */
    method AddTagUse(tag: string, url: string)
      modifies this`tagMap, this`tagOrder
      ensures Tags() == PushTag(old(Tags()), TagUse(tag, url))
    {
      if tag !in tagMap {
        tagMap := tagMap[tag := []];
        tagOrder := tagOrder + [tag];
      }
      tagMap := tagMap[tag := tagMap[tag] + [url]];
    }

    /** The body of `folder.bookmarks.forEach`: a node, a link from the folder and the tags. */
    method AddBookmark(b: Bookmark, folderId: nat)
      modifies this`nodes, this`links, this`tagMap, this`tagOrder
      ensures nodes == old(nodes) + [BookmarkNodeOf(b)]
      ensures links == old(links) + [GraphLink(FolderId(folderId), UrlId(b.url), HierarchyLink)]
      ensures Tags() == RecordUses(old(Tags()), BookmarkTagUses(b))
    {
      nodes := nodes + [GraphNode(UrlId(b.url), b.title, BookmarkNode, Some(b.url))];
      links := links + [GraphLink(FolderId(folderId), UrlId(b.url), HierarchyLink)];
      if b.tags.Some? {
        var tags := b.tags.value;
        var k := 0;
        while k < |tags|
          invariant 0 <= k <= |tags|
          invariant nodes == old(nodes) + [BookmarkNodeOf(b)]
          invariant links == old(links) + [GraphLink(FolderId(folderId), UrlId(b.url), HierarchyLink)]
          invariant Tags() == RecordUses(old(Tags()), BookmarkTagUses(b)[..k])
        {
          AddTagUse(tags[k], b.url);
          assert BookmarkTagUses(b)[..k + 1][..k] == BookmarkTagUses(b)[..k];
          k := k + 1;
        }
        assert BookmarkTagUses(b)[..k] == BookmarkTagUses(b);
      }
    }

    /** `folder.bookmarks.forEach(...)`: every bookmark of one folder, in order. */
    method AddBookmarks(bs: seq<Bookmark>, folderId: nat)
      modifies this`nodes, this`links, this`tagMap, this`tagOrder
      ensures nodes == old(nodes) + BookmarkNodes(bs)
      ensures links == old(links) + ContainmentLinks(folderId, bs)
      ensures Tags() == RecordUses(old(Tags()), FlatMap(bs, BookmarkTagUses))
    {
      assert BookmarkNodes(bs[..0]) == [] && ContainmentLinks(folderId, bs[..0]) == [];
      assert nodes == old(nodes) + [] && links == old(links) + [];
      var j := 0;
      while j < |bs|
        invariant 0 <= j <= |bs|
        invariant nodes == old(nodes) + BookmarkNodes(bs[..j])
        invariant links == old(links) + ContainmentLinks(folderId, bs[..j])
        invariant Tags() == RecordUses(old(Tags()), FlatMap(bs[..j], BookmarkTagUses))
      {
        ghost var n0, l0 := nodes, links;
        AddBookmark(bs[j], folderId);
        BookmarkPrefixStep(bs, j, folderId);
        AppendStep(old(nodes), n0, nodes, BookmarkNodes(bs[..j]), [BookmarkNodeOf(bs[j])], BookmarkNodes(bs[..j + 1]));
        AppendStep(old(links), l0, links, ContainmentLinks(folderId, bs[..j]),
          [GraphLink(FolderId(folderId), UrlId(bs[j].url), HierarchyLink)], ContainmentLinks(folderId, bs[..j + 1]));
        RecordAppend(old(Tags()), FlatMap(bs[..j], BookmarkTagUses), BookmarkTagUses(bs[j]));
        j := j + 1;
      }
      assert bs[..j] == bs;
    }

    /** `traverse(folders, parentId)`: visits each folder in turn. */
    method Traverse(folders: seq<BookmarkFolder>, parentId: Option<nat>)
      modifies this
      ensures State() == Walked(old(State()), folders, parentId)
      decreases FolderCount(folders), 1
    {
      assert folders[..0] == [];
      assert nodes == nodes + [] && links == links + [];
      var i := 0;
      while i < |folders|
        invariant 0 <= i <= |folders|
        invariant State() == Walked(old(State()), folders[..i], parentId)
      {
        FolderCountElement(folders, i);
        VisitFolder(folders[i], parentId);
        WalkedStep(old(State()), folders, i, parentId);
        i := i + 1;
      }
      assert folders[..i] == folders;
    }

    /**
     * The first part of the body of `folders.forEach`: a fresh id and a node for
     * the folder, a link from its parent, then its bookmarks.
     */
    method AddFolder(folder: BookmarkFolder, parentId: Option<nat>) returns (folderId: nat)
      modifies this
      ensures folderId == old(nextId) && nextId == folderId + 1
      ensures nodes == old(nodes) + VisitNodes(Visit(folderId, parentId, folder))
      ensures links == old(links) + VisitLinks(Visit(folderId, parentId, folder))
      ensures Tags() == RecordUses(old(Tags()), VisitTagUses(Visit(folderId, parentId, folder)))
    {
      folderId := nextId;
      nextId := nextId + 1;
      nodes := nodes + [GraphNode(FolderId(folderId), folder.folderName, FolderNode, None)];
      if parentId.Some? {
        links := links + [GraphLink(FolderId(parentId.value), FolderId(folderId), HierarchyLink)];
      }
      ghost var v := Visit(folderId, parentId, folder);
      ghost var n0, l0 := nodes, links;
      assert l0 == old(links) + ParentLink(v);
      AddBookmarks(folder.bookmarks, folderId);
      AppendStep(old(nodes), n0, nodes, [FolderNodeOf(v)], BookmarkNodes(folder.bookmarks), VisitNodes(v));
      AppendStep(old(links), l0, links, ParentLink(v), ContainmentLinks(folderId, folder.bookmarks), VisitLinks(v));
    }

    /** The body of `folders.forEach`: the folder itself, then `traverse` of its subfolders. */
    method VisitFolder(folder: BookmarkFolder, parentId: Option<nat>)
      modifies this
      ensures State() == Walked(old(State()), [folder], parentId)
      decreases FolderCount(folder.subfolders), 2
    {
      var folderId := AddFolder(folder, parentId);
      ghost var mid := State();
      assert FolderCount([folder]) == 1 + FolderCount(folder.subfolders) by {
        assert [folder][1..] == [];
      }
      Traverse(folder.subfolders, Some(folderId));
      OneFolderNodes(old(nodes), mid.nodes, nodes, folder, parentId, folderId, mid.next);
      OneFolderLinks(old(links), mid.links, links, folder, parentId, folderId, mid.next);
      OneFolderTags(old(Tags()), mid.tags, Tags(), folder, parentId, folderId, mid.next);
    }

    /** The pair loop for one tag's URL list, guarded by `urls.length > 1`. */
    method AddPairLinks(urls: seq<string>)
      modifies this`links
      ensures links == old(links) + PairLinks(urls)
    {
      if |urls| > 1 {
        var i := 0;
        while i < |urls|
          invariant 0 <= i <= |urls|
          invariant links == old(links) + PairRows(urls, i)
        {
          var j := i + 1;
          while j < |urls|
            invariant i + 1 <= j <= |urls|
            invariant links == old(links) + PairRows(urls, i) + PairRow(urls, i)[..j - i - 1]
          {
            links := links + [GraphLink(UrlId(urls[i]), UrlId(urls[j]), TagLink)];
            assert PairRow(urls, i)[..j - i] == PairRow(urls, i)[..j - i - 1] + [PairRow(urls, i)[j - i - 1]];
            j := j + 1;
          }
          assert PairRow(urls, i)[..j - i - 1] == PairRow(urls, i);
          i := i + 1;
        }
      } else {
        assert PairLinks(urls) == [] by {
          if |urls| == 1 {
            assert PairRows(urls, 1) == PairRows(urls, 0) + PairRow(urls, 0);
          }
        }
        assert links == old(links) + [];
      }
    }

    /** `for (const urls of tagMap.values())`: the tag links, tag by tag in key order. */
    method AddTagLinks()
      requires forall t :: t in tagOrder ==> t in tagMap
      modifies this`links
      ensures links == old(links) + TagLinksOver(tagOrder, tagMap)
    {
      assert links == old(links) + [];
      var i := 0;
      while i < |tagOrder|
        invariant 0 <= i <= |tagOrder|
        invariant links == old(links) + TagLinksOver(tagOrder[..i], tagMap)
      {
        AddPairLinks(tagMap[tagOrder[i]]);
        assert tagOrder[..i + 1][..i] == tagOrder[..i];
        i := i + 1;
      }
      assert tagOrder[..i] == tagOrder;
    }
  }

  /** One node per id, at the place its id first occurs, with the data of the last node carrying that id. */
  method UniqueNodes(ns: seq<GraphNode>) returns (unique: seq<GraphNode>)
    ensures unique == DedupById(ns)
  {
    var keys: seq<NodeId> := [];
    var byId: map<NodeId, GraphNode> := map[];
    var i := 0;
    while i < |ns|
      invariant 0 <= i <= |ns|
      invariant keys == FirstIds(ns[..i])
      invariant byId.Keys == Ids(ns[..i])
      invariant forall id :: id in byId ==> byId[id] == LastWithId(ns[..i], id)
    {
      assert ns[..i + 1][..i] == ns[..i];
      FirstIdsSet(ns[..i]);
      if ns[i].id !in byId {
        keys := keys + [ns[i].id];
      }
      byId := byId[ns[i].id := ns[i]];
      i := i + 1;
    }
    assert ns[..i] == ns;
    FirstIdsSet(ns);
    unique := seq(|keys|, k requires 0 <= k < |keys| => byId[keys[k]]);
  }

  /** `transformToGraphData(structure)`. */
  method TransformToGraphData(structure: seq<BookmarkFolder>) returns (nodes: seq<GraphNode>, links: seq<GraphLink>)
    ensures nodes == GraphNodes(structure)
    ensures links == GraphLinks(structure)
  {
    var builder := new GraphBuilder();
    builder.Traverse(structure, None);
    ghost var vs := Visits(structure, None, 0);
    assert builder.nodes == [] + RawNodes(vs) == RawNodes(vs);
    assert builder.links == [] + HierarchyLinks(vs) == HierarchyLinks(vs);
    RecordFromEmpty(TagUses(vs));
    builder.AddTagLinks();
    nodes := UniqueNodes(builder.nodes);
    links := builder.links;
  }
}
