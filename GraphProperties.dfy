/**
 * What the tree-to-graph transform promises about its result, proved about the
 * functions that specify it (GraphTransformer.GraphNodes and GraphLinks), which
 * the walk GraphTransformer.TransformToGraphData is proved to compute.
 */
module GraphProperties {
  import opened Wrappers
  import opened Types
  import opened GraphTransformer
  import opened Seqs

  // ---------------------------------------------------------------------------
  // Keeping one node per id

  lemma {:induction false} IdsMember(ns: seq<GraphNode>, id: NodeId)
    ensures id in Ids(ns) <==> exists k :: 0 <= k < |ns| && ns[k].id == id
  {
    if ns != [] {
      var init := ns[..|ns| - 1];
      IdsMember(init, id);
      if id in Ids(init) {
        var k :| 0 <= k < |init| && init[k].id == id;
        assert ns[k] == init[k];
      }
      if exists k :: 0 <= k < |ns| && ns[k].id == id {
        var k :| 0 <= k < |ns| && ns[k].id == id;
        if k < |init| {
          assert init[k] == ns[k];
        }
      }
    }
  }

  /** The position of the node the Map keeps for `id`: the last one with that id. */
  lemma {:induction false} LastWithIdIsLast(ns: seq<GraphNode>, id: NodeId) returns (m: nat)
    requires id in Ids(ns)
    ensures m < |ns| && ns[m] == LastWithId(ns, id) && ns[m].id == id
    ensures forall m' :: m < m' < |ns| ==> ns[m'].id != id
  {
    if ns[|ns| - 1].id == id {
      m := |ns| - 1;
    } else {
      var init := ns[..|ns| - 1];
      m := LastWithIdIsLast(init, id);
      forall m' | m < m' < |ns|
        ensures ns[m'].id != id
      {
        if m' < |init| {
          assert ns[m'] == init[m'];
        }
      }
    }
  }

  lemma {:induction false} FirstIdsDistinct(ns: seq<GraphNode>)
    ensures forall j, k :: 0 <= j < k < |FirstIds(ns)| ==> FirstIds(ns)[j] != FirstIds(ns)[k]
  {
    if ns != [] {
      FirstIdsDistinct(ns[..|ns| - 1]);
    }
  }

  /**
   * De-duplication by id: the ids of the result are pairwise distinct and are
   * exactly the ids of the input, and the node kept for an id is the last input
   * node with that id, later ones overwriting earlier ones as in a Map.
   */
  lemma DedupByIdCorrect(ns: seq<GraphNode>)
    ensures var r := DedupById(ns);
      forall j, k :: 0 <= j < k < |r| ==> r[j].id != r[k].id
    ensures Ids(DedupById(ns)) == Ids(ns)
    ensures var r := DedupById(ns);
      forall k :: 0 <= k < |r| ==>
        exists m :: 0 <= m < |ns| && ns[m] == r[k] && forall m' :: m < m' < |ns| ==> ns[m'].id != r[k].id
  {
    var r := DedupById(ns);
    var keys := FirstIds(ns);
    FirstIdsSet(ns);
    FirstIdsDistinct(ns);
    assert forall k :: 0 <= k < |r| ==> r[k] == LastWithId(ns, keys[k]);
    forall k | 0 <= k < |r|
      ensures r[k].id == keys[k]
      ensures exists m :: 0 <= m < |ns| && ns[m] == r[k] && forall m' :: m < m' < |ns| ==> ns[m'].id != r[k].id
    {
      var m := LastWithIdIsLast(ns, keys[k]);
    }
    forall id | true
      ensures id in Ids(r) <==> id in Ids(ns)
    {
      IdsMember(ns, id);
      IdsMember(r, id);
      if id in keys {
        var k :| 0 <= k < |keys| && keys[k] == id;
        assert r[k].id == id;
      }
    }
  }

  lemma {:induction false} IdsAppend(a: seq<GraphNode>, b: seq<GraphNode>)
    ensures Ids(a + b) == Ids(a) + Ids(b)
  {
    if b != [] {
      assert (a + b)[..|a + b| - 1] == a + b[..|b| - 1];
      IdsAppend(a, b[..|b| - 1]);
    } else {
      assert a + b == a;
    }
  }

  /** In a concatenation, the Map keeps the node from the later part when that part has the id. */
  lemma {:induction false} LastWithIdAppend(a: seq<GraphNode>, b: seq<GraphNode>, id: NodeId)
    requires id in Ids(a + b)
    ensures id in Ids(b) ==> LastWithId(a + b, id) == LastWithId(b, id)
    ensures id !in Ids(b) ==> id in Ids(a) && LastWithId(a + b, id) == LastWithId(a, id)
  {
    IdsAppend(a, b);
    if b == [] {
      assert a + b == a;
    } else {
      var init := b[..|b| - 1];
      assert (a + b)[..|a + b| - 1] == a + init;
      if b[|b| - 1].id != id {
        IdsAppend(a, init);
        LastWithIdAppend(a, init, id);
      }
    }
  }

  /** The node kept for an id present in the input is among the result. */
  lemma DedupKeepsLast(ns: seq<GraphNode>, id: NodeId)
    requires id in Ids(ns)
    ensures LastWithId(ns, id) in DedupById(ns)
  {
    FirstIdsSet(ns);
    var keys := FirstIds(ns);
    var k :| 0 <= k < |keys| && keys[k] == id;
    assert DedupById(ns)[k] == LastWithId(ns, id);
  }

  // ---------------------------------------------------------------------------
  // The nodes of the walk

  lemma {:induction false} FlatMapMember<A, B>(xs: seq<A>, f: A -> seq<B>, y: B)
    ensures y in FlatMap(xs, f) <==> exists k :: 0 <= k < |xs| && y in f(xs[k])
  {
    if xs != [] {
      FlatMapMember(xs[1..], f, y);
      if y in FlatMap(xs[1..], f) {
        var k :| 0 <= k < |xs[1..]| && y in f(xs[1..][k]);
        assert xs[k + 1] == xs[1..][k];
      }
      if exists k :: 0 <= k < |xs| && y in f(xs[k]) {
        var k :| 0 <= k < |xs| && y in f(xs[k]);
        if k > 0 {
          assert xs[1..][k - 1] == xs[k];
        }
      }
    }
  }

  lemma {:induction false} FlatMapWitness<A, B>(xs: seq<A>, f: A -> seq<B>, y: B) returns (k: nat)
    requires y in FlatMap(xs, f)
    ensures k < |xs| && y in f(xs[k])
  {
    if y in f(xs[0]) {
      k := 0;
    } else {
      var k' := FlatMapWitness(xs[1..], f, y);
      k := k' + 1;
    }
  }

  /** The walk visits each folder's own bookmarks in the order AllBookmarks lists them. */
  lemma {:induction false} VisitsBookmarks(fs: seq<BookmarkFolder>, parent: Option<nat>, next: nat)
    ensures FlatMap(Visits(fs, parent, next), VisitBookmarks) == AllBookmarks(fs)
    decreases FolderCount(fs)
  {
    if fs != [] {
      var v := Visit(next, parent, fs[0]);
      var a := Visits(fs[0].subfolders, Some(next), next + 1);
      var b := Visits(fs[1..], parent, next + 1 + FolderCount(fs[0].subfolders));
      FlatMapAppend([v] + a, b, VisitBookmarks);
      FlatMapAppend([v], a, VisitBookmarks);
      FlatMapSingle(v, VisitBookmarks);
      VisitsBookmarks(fs[0].subfolders, Some(next), next + 1);
      VisitsBookmarks(fs[1..], parent, next + 1 + FolderCount(fs[0].subfolders));
    }
  }

  /** The last bookmark of `bs` with URL `u`. */
  function LastWithUrl(bs: seq<Bookmark>, u: string): (b: Bookmark)
    requires u in Urls(bs)
    ensures b in bs && b.url == u
  {
    var last := bs[|bs| - 1];
    UrlsSnoc(bs, u);
    if last.url == u then last else LastWithUrl(bs[..|bs| - 1], u)
  }

  lemma {:induction false} BookmarkNodesLast(bs: seq<Bookmark>, u: string)
    ensures UrlId(u) in Ids(BookmarkNodes(bs)) <==> u in Urls(bs)
    ensures u in Urls(bs) ==> LastWithId(BookmarkNodes(bs), UrlId(u)) == BookmarkNodeOf(LastWithUrl(bs, u))
  {
    if bs != [] {
      var init := bs[..|bs| - 1];
      var ns := BookmarkNodes(bs);
      assert ns[..|ns| - 1] == BookmarkNodes(init);
      BookmarkNodesLast(init, u);
      UrlsSnoc(bs, u);
    }
  }

  lemma {:induction false} LastWithUrlAppend(a: seq<Bookmark>, b: seq<Bookmark>, u: string)
    requires u in Urls(a + b)
    ensures u in Urls(b) ==> LastWithUrl(a + b, u) == LastWithUrl(b, u)
    ensures u !in Urls(b) ==> u in Urls(a) && LastWithUrl(a + b, u) == LastWithUrl(a, u)
  {
    UrlsAppend(a, b);
    if b == [] {
      assert a + b == a;
    } else {
      var init := b[..|b| - 1];
      AppendBack(a, b);
      UrlsSnoc(b, u);
      UrlsSnoc(a + b, u);
      if b[|b| - 1].url != u {
        LastWithUrlAppend(a, init, u);
      }
    }
  }

  /** The node the Map keeps for a URL is made from the last bookmark with that URL. */
  lemma {:induction false} RawNodesUrl(vs: seq<Visit>, u: string)
    ensures UrlId(u) in Ids(RawNodes(vs)) <==> u in Urls(FlatMap(vs, VisitBookmarks))
    ensures u in Urls(FlatMap(vs, VisitBookmarks)) ==>
      LastWithId(RawNodes(vs), UrlId(u)) == BookmarkNodeOf(LastWithUrl(FlatMap(vs, VisitBookmarks), u))
  {
    if vs != [] {
      var init := vs[..|vs| - 1];
      var v := vs[|vs| - 1];
      var bs := v.folder.bookmarks;
      BackSplit(vs);
      FlatMapAppend(init, [v], VisitNodes);
      FlatMapSingle(v, VisitNodes);
      FlatMapAppend(init, [v], VisitBookmarks);
      FlatMapSingle(v, VisitBookmarks);
      RawNodesUrl(init, u);
      BookmarkNodesLast(bs, u);
      IdsAppend([FolderNodeOf(v)], BookmarkNodes(bs));
      assert Ids([FolderNodeOf(v)]) == {FolderId(v.id)} by {
        assert [FolderNodeOf(v)][..0] == [];
      }
      IdsAppend(RawNodes(init), VisitNodes(v));
      UrlsAppend(FlatMap(init, VisitBookmarks), bs);
      if u in Urls(FlatMap(vs, VisitBookmarks)) {
        LastWithUrlAppend(FlatMap(init, VisitBookmarks), bs, u);
        LastWithIdAppend(RawNodes(init), VisitNodes(v), UrlId(u));
        if u in Urls(bs) {
          LastWithIdAppend([FolderNodeOf(v)], BookmarkNodes(bs), UrlId(u));
        }
      }
    }
  }

  /** Every node pushed by the walk is a visit's folder node or the node of one of its bookmarks. */
  lemma RawNodesShape(vs: seq<Visit>, y: GraphNode)
    requires y in RawNodes(vs)
    ensures (exists k :: 0 <= k < |vs| && y == FolderNodeOf(vs[k]))
      || (exists b :: b in FlatMap(vs, VisitBookmarks) && y == BookmarkNodeOf(b))
  {
    var k := FlatMapWitness(vs, VisitNodes, y);
    var bs := vs[k].folder.bookmarks;
    if y != FolderNodeOf(vs[k]) {
      assert y in BookmarkNodes(bs);
      var i :| 0 <= i < |bs| && y == BookmarkNodeOf(bs[i]);
      FlatMapMember(vs, VisitBookmarks, bs[i]);
    }
  }

  /** The only node of a visit with a folder id is the visit's folder node. */
  lemma VisitNodesFolderId(v: Visit, y: GraphNode)
    requires y in VisitNodes(v) && y.id.FolderId?
    ensures y == FolderNodeOf(v)
  {
    var bs := v.folder.bookmarks;
    assert VisitNodes(v) == [FolderNodeOf(v)] + BookmarkNodes(bs);
    assert forall i :: 0 <= i < |bs| ==> BookmarkNodes(bs)[i].id.UrlId?;
  }

  /** With consecutive ids, the node the Map keeps for a folder id is that folder's own node. */
  lemma RawNodesFolder(vs: seq<Visit>, parent: Option<nat>, next: nat, k: nat)
    requires NumberedFrom(vs, parent, next) && k < |vs|
    ensures FolderId(vs[k].id) in Ids(RawNodes(vs))
    ensures LastWithId(RawNodes(vs), FolderId(vs[k].id)) == FolderNodeOf(vs[k])
  {
    var raw := RawNodes(vs);
    var node := FolderNodeOf(vs[k]);
    assert node in VisitNodes(vs[k]);
    FlatMapMember(vs, VisitNodes, node);
    IdsMember(raw, node.id);
    var m := LastWithIdIsLast(raw, node.id);
    var j := FlatMapWitness(vs, VisitNodes, raw[m]);
    VisitNodesFolderId(vs[j], raw[m]);
  }

  /**
   * Folder ids come from a counter, so they are pairwise distinct even when
   * folder names repeat; there is one visit per folder instance at any depth.
   */
  lemma FolderIdsDistinct(s: seq<BookmarkFolder>)
    ensures var vs := Visits(s, None, 0);
      |vs| == FolderCount(s) && forall j, k :: 0 <= j < k < |vs| ==> vs[j].id != vs[k].id
  {
    VisitIds(s, None, 0);
    VisitsLength(s, None, 0);
  }

  /**
   * The nodes of the graph: pairwise distinct ids; one folder node, named after
   * the folder, for every folder instance; for every URL the node of the last
   * bookmark with that URL; and nothing else.
   */
  lemma GraphNodesCorrect(s: seq<BookmarkFolder>)
    ensures var r := GraphNodes(s);
      forall j, k :: 0 <= j < k < |r| ==> r[j].id != r[k].id
    ensures var vs := Visits(s, None, 0);
      forall k :: 0 <= k < |vs| ==>
        GraphNode(FolderId(vs[k].id), vs[k].folder.folderName, FolderNode, None) in GraphNodes(s)
    ensures forall u :: u in Urls(AllBookmarks(s)) ==>
      BookmarkNodeOf(LastWithUrl(AllBookmarks(s), u)) in GraphNodes(s)
    ensures var vs := Visits(s, None, 0);
      forall y :: y in GraphNodes(s) ==>
        (exists k :: 0 <= k < |vs| && y == FolderNodeOf(vs[k]))
        || (exists b :: b in AllBookmarks(s) && y == BookmarkNodeOf(b))
  {
    var vs := Visits(s, None, 0);
    var raw := RawNodes(vs);
    DedupByIdCorrect(raw);
    VisitIds(s, None, 0);
    VisitsLength(s, None, 0);
    VisitsBookmarks(s, None, 0);
    forall k | 0 <= k < |vs|
      ensures FolderNodeOf(vs[k]) in GraphNodes(s)
    {
      RawNodesFolder(vs, None, 0, k);
      DedupKeepsLast(raw, FolderId(vs[k].id));
    }
    forall u | u in Urls(AllBookmarks(s))
      ensures BookmarkNodeOf(LastWithUrl(AllBookmarks(s), u)) in GraphNodes(s)
    {
      RawNodesUrl(vs, u);
      DedupKeepsLast(raw, UrlId(u));
    }
    forall y | y in GraphNodes(s)
      ensures (exists k :: 0 <= k < |vs| && y == FolderNodeOf(vs[k]))
        || (exists b :: b in AllBookmarks(s) && y == BookmarkNodeOf(b))
    {
      var k :| 0 <= k < |GraphNodes(s)| && GraphNodes(s)[k] == y;
      var m :| 0 <= m < |raw| && raw[m] == y && forall m' :: m < m' < |raw| ==> raw[m'].id != y.id;
      RawNodesShape(vs, y);
    }
  }

  // ---------------------------------------------------------------------------
  // Tag links

  /** The tag link the pair loop emits for positions `i < j` of a URL list. */
  function PairLink(urls: seq<string>, i: nat, j: nat): GraphLink
    requires i < j < |urls|
  {
    GraphLink(UrlId(urls[i]), UrlId(urls[j]), TagLink)
  }

  lemma {:induction false} PairRowsCount(urls: seq<string>, n: nat)
    requires n <= |urls|
    ensures 2 * |PairRows(urls, n)| == n * (2 * |urls| - n - 1)
  {
    if n > 0 {
      PairRowsCount(urls, n - 1);
      assert |PairRow(urls, n - 1)| == |urls| - n;
      assert n * (2 * |urls| - n - 1) == (n - 1) * (2 * |urls| - (n - 1) - 1) + 2 * (|urls| - n);
    }
  }

  lemma {:induction false} PairRowsMember(urls: seq<string>, n: nat, l: GraphLink)
    requires n <= |urls|
    ensures l in PairRows(urls, n) <==> exists i, j :: 0 <= i < n && i < j < |urls| && l == PairLink(urls, i, j)
  {
    if n > 0 {
      PairRowsMember(urls, n - 1, l);
      var p := n - 1;
      var row := PairRow(urls, p);
      if l in row {
        var k :| 0 <= k < |row| && row[k] == l;
        assert l == PairLink(urls, p, n + k);
      }
      if exists j :: p < j < |urls| && l == PairLink(urls, p, j) {
        var j :| p < j < |urls| && l == PairLink(urls, p, j);
        assert row[j - n] == l;
      }
    }
  }

  /**
   * The pair loop over one tag's URL list L adds exactly |L|·(|L|−1)/2 links,
   * namely (L[i], L[j]) for every i < j; so a list of at most one URL adds none.
   */
  lemma PairLinksCorrect(urls: seq<string>)
    ensures 2 * |PairLinks(urls)| == |urls| * (|urls| - 1)
    ensures forall l :: l in PairLinks(urls) <==>
      exists i, j :: 0 <= i < j < |urls| && l == PairLink(urls, i, j)
    ensures |urls| <= 1 ==> PairLinks(urls) == []
  {
    PairRowsCount(urls, |urls|);
    forall l | true
      ensures l in PairLinks(urls) <==> exists i, j :: 0 <= i < j < |urls| && l == PairLink(urls, i, j)
    {
      PairRowsMember(urls, |urls|, l);
    }
  }

  /** A URL listed twice under one tag is linked to itself. */
  lemma PairLinksSelfLink(u: string)
    ensures PairLinks([u, u]) == [GraphLink(UrlId(u), UrlId(u), TagLink)]
  {
    assert PairRows([u, u], 1) == PairRow([u, u], 0);
    assert PairRow([u, u], 1) == [];
  }

  /** The tag links of the tags `tags`, each tag's pairs in turn, read off the entry list. */
  function PairsByTag(us: seq<TagUse>, tags: seq<string>): seq<GraphLink>
  {
    if tags == [] then []
    else PairsByTag(us, tags[..|tags| - 1]) + PairLinks(UrlsTagged(us, tags[|tags| - 1]))
  }

  lemma {:induction false} TagLinksOverByTag(keys: seq<string>, m: map<string, seq<string>>, us: seq<TagUse>)
    requires forall t :: t in keys ==> t in m && m[t] == UrlsTagged(us, t)
    ensures TagLinksOver(keys, m) == PairsByTag(us, keys)
  {
    if keys != [] {
      TagLinksOverByTag(keys[..|keys| - 1], m, us);
    }
  }

  lemma {:induction false} UrlsTaggedAppend(a: seq<TagUse>, b: seq<TagUse>, t: string)
    ensures UrlsTagged(a + b, t) == UrlsTagged(a, t) + UrlsTagged(b, t)
  {
    if b == [] {
      assert a + b == a;
    } else {
      assert (a + b)[..|a + b| - 1] == a + b[..|b| - 1];
      UrlsTaggedAppend(a, b[..|b| - 1], t);
    }
  }

  /** How many times the tag `t` is listed over the bookmarks `bs`, counting repeats. */
  function TagCount(bs: seq<Bookmark>, t: string): nat
  {
    if bs == [] then 0 else multiset(TagsOf(bs[0]))[t] + TagCount(bs[1..], t)
  }

  lemma {:induction false} UrlsTaggedPrefix(b: Bookmark, t: string, n: nat)
    requires n <= |TagsOf(b)|
    ensures |UrlsTagged(BookmarkTagUses(b)[..n], t)| == multiset(TagsOf(b)[..n])[t]
    ensures forall x :: x in UrlsTagged(BookmarkTagUses(b)[..n], t) ==> x == b.url
  {
    if n > 0 {
      UrlsTaggedPrefix(b, t, n - 1);
      assert BookmarkTagUses(b)[..n][..n - 1] == BookmarkTagUses(b)[..n - 1];
      assert TagsOf(b)[..n] == TagsOf(b)[..n - 1] + [TagsOf(b)[n - 1]];
    }
  }

  /** One bookmark puts its URL under `t` once per listing of `t` in its tags. */
  lemma UrlsTaggedOne(b: Bookmark, t: string)
    ensures |UrlsTagged(BookmarkTagUses(b), t)| == multiset(TagsOf(b))[t]
    ensures forall x :: x in UrlsTagged(BookmarkTagUses(b), t) <==> x == b.url && t in TagsOf(b)
  {
    UrlsTaggedPrefix(b, t, |TagsOf(b)|);
    assert BookmarkTagUses(b)[..|TagsOf(b)|] == BookmarkTagUses(b);
    assert TagsOf(b)[..|TagsOf(b)|] == TagsOf(b);
    var L := UrlsTagged(BookmarkTagUses(b), t);
    assert t in TagsOf(b) <==> multiset(TagsOf(b))[t] > 0;
    if t in TagsOf(b) {
      assert L[0] in L;
    }
  }

  /**
   * Over a list of bookmarks, the URL list of tag `t` has one entry per listing
   * of `t`, and holds exactly the URLs of the bookmarks that carry `t`.
   */
  lemma {:induction false} UrlsTaggedBookmarks(bs: seq<Bookmark>, t: string)
    ensures |UrlsTagged(FlatMap(bs, BookmarkTagUses), t)| == TagCount(bs, t)
    ensures forall x :: x in UrlsTagged(FlatMap(bs, BookmarkTagUses), t) <==>
      exists b :: b in bs && b.url == x && t in TagsOf(b)
  {
    if bs == [] {
    } else {
      UrlsTaggedBookmarks(bs[1..], t);
      UrlsTaggedOne(bs[0], t);
      UrlsTaggedAppend(BookmarkTagUses(bs[0]), FlatMap(bs[1..], BookmarkTagUses), t);
      forall x
        ensures x in UrlsTagged(FlatMap(bs, BookmarkTagUses), t) <==>
          exists b :: b in bs && b.url == x && t in TagsOf(b)
      {
        if exists b :: b in bs && b.url == x && t in TagsOf(b) {
          var b :| b in bs && b.url == x && t in TagsOf(b);
          if b != bs[0] {
            assert b in bs[1..];
          }
        }
      }
    }
  }

  lemma {:induction false} TagUsesOfVisits(vs: seq<Visit>)
    ensures TagUses(vs) == FlatMap(FlatMap(vs, VisitBookmarks), BookmarkTagUses)
  {
    if vs != [] {
      TagUsesOfVisits(vs[1..]);
      FlatMapAppend(vs[0].folder.bookmarks, FlatMap(vs[1..], VisitBookmarks), BookmarkTagUses);
    }
  }

  /**
   * The tag links of a forest: the URL list L of each tag holds one entry per
   * listing of the tag on a bookmark, in traversal order, and holds exactly the
   * URLs of the bookmarks carrying it; the tags come in order of first use, and
   * each contributes the |L|·(|L|−1)/2 pairs of its list (so a tag listed only
   * once adds none, and untagged bookmarks add nothing).
   */
  lemma TagLinksCorrect(s: seq<BookmarkFolder>)
    ensures TagUses(Visits(s, None, 0)) == FlatMap(AllBookmarks(s), BookmarkTagUses)
    ensures TagLinks(TagUses(Visits(s, None, 0))) ==
      PairsByTag(TagUses(Visits(s, None, 0)), TagOrder(TagUses(Visits(s, None, 0))))
    ensures forall t :: t in TagOrder(TagUses(Visits(s, None, 0))) <==> TagCount(AllBookmarks(s), t) > 0
    ensures forall t :: |UrlsTagged(TagUses(Visits(s, None, 0)), t)| == TagCount(AllBookmarks(s), t)
    ensures forall t, x :: x in UrlsTagged(TagUses(Visits(s, None, 0)), t) <==>
      exists b :: b in AllBookmarks(s) && b.url == x && t in TagsOf(b)
  {
    var vs := Visits(s, None, 0);
    var us := TagUses(vs);
    TagUsesOfVisits(vs);
    VisitsBookmarks(s, None, 0);
    RecordFromEmpty(us);
    var ix := RecordUses(EmptyTagIndex, us);
    TagLinksOverByTag(ix.order, ix.urls, us);
    forall t
      ensures t in TagOrder(us) <==> TagCount(AllBookmarks(s), t) > 0
      ensures |UrlsTagged(us, t)| == TagCount(AllBookmarks(s), t)
      ensures forall x :: x in UrlsTagged(us, t) <==> exists b :: b in AllBookmarks(s) && b.url == x && t in TagsOf(b)
    {
      UrlsTaggedBookmarks(AllBookmarks(s), t);
      TagOrderMembers(us, t);
    }
  }

  // ---------------------------------------------------------------------------
  // Hierarchy links

  /** The number of hierarchy links in `ls` that point at `t`. */
  function HierarchyInto(ls: seq<GraphLink>, t: NodeId): nat
  {
    if ls == [] then 0
    else (if ls[0].linkType == HierarchyLink && ls[0].target == t then 1 else 0) + HierarchyInto(ls[1..], t)
  }

  lemma {:induction false} HierarchyIntoAppend(a: seq<GraphLink>, b: seq<GraphLink>, t: NodeId)
    ensures HierarchyInto(a + b, t) == HierarchyInto(a, t) + HierarchyInto(b, t)
  {
    if a == [] {
      assert a + b == b;
    } else {
      assert (a + b)[1..] == a[1..] + b;
      HierarchyIntoAppend(a[1..], b, t);
    }
  }

  /** The number of bookmark occurrences in `bs` with URL `u`. */
  function UrlCount(bs: seq<Bookmark>, u: string): nat
  {
    if bs == [] then 0 else (if bs[0].url == u then 1 else 0) + UrlCount(bs[1..], u)
  }

  lemma {:induction false} UrlCountAppend(a: seq<Bookmark>, b: seq<Bookmark>, u: string)
    ensures UrlCount(a + b, u) == UrlCount(a, u) + UrlCount(b, u)
  {
    if a == [] {
      assert a + b == b;
    } else {
      assert (a + b)[1..] == a[1..] + b;
      UrlCountAppend(a[1..], b, u);
    }
  }

  /** The number of visits in `vs` with id `n` that have a parent. */
  function ChildVisits(vs: seq<Visit>, n: nat): nat
  {
    if vs == [] then 0 else (if vs[0].id == n && vs[0].parent.Some? then 1 else 0) + ChildVisits(vs[1..], n)
  }

  lemma {:induction false} ContainmentInto(id: nat, bs: seq<Bookmark>, t: NodeId)
    ensures HierarchyInto(ContainmentLinks(id, bs), t) == if t.UrlId? then UrlCount(bs, t.url) else 0
  {
    if bs != [] {
      assert ContainmentLinks(id, bs)[1..] == ContainmentLinks(id, bs[1..]);
      ContainmentInto(id, bs[1..], t);
    }
  }

  /** A URL is the target of one hierarchy link per occurrence; a folder id, of one per child visit. */
  lemma {:induction false} HierarchyIntoVisits(vs: seq<Visit>, t: NodeId)
    ensures HierarchyInto(HierarchyLinks(vs), t) ==
      if t.UrlId? then UrlCount(FlatMap(vs, VisitBookmarks), t.url) else ChildVisits(vs, t.n)
  {
    if vs != [] {
      HierarchyIntoVisits(vs[1..], t);
      var v := vs[0];
      HierarchyIntoAppend(VisitLinks(v), HierarchyLinks(vs[1..]), t);
      HierarchyIntoAppend(ParentLink(v), ContainmentLinks(v.id, v.folder.bookmarks), t);
      ContainmentInto(v.id, v.folder.bookmarks, t);
      if t.UrlId? {
        UrlCountAppend(v.folder.bookmarks, FlatMap(vs[1..], VisitBookmarks), t.url);
      }
      if v.parent.Some? {
        assert ParentLink(v)[1..] == [];
      }
    }
  }

  lemma {:induction false} ChildVisitsNumbered(vs: seq<Visit>, next: nat, n: nat)
    requires forall k :: 0 <= k < |vs| ==> vs[k].id == next + k
    ensures ChildVisits(vs, n) == if next <= n < next + |vs| && vs[n - next].parent.Some? then 1 else 0
  {
    if vs != [] {
      assert forall k :: 0 <= k < |vs[1..]| ==> vs[1..][k].id == next + 1 + k by {
        forall k | 0 <= k < |vs[1..]| ensures vs[1..][k].id == next + 1 + k {
          assert vs[1..][k] == vs[k + 1];
        }
      }
      ChildVisitsNumbered(vs[1..], next + 1, n);
      if next + 1 <= n < next + |vs| {
        assert vs[1..][n - (next + 1)] == vs[n - next];
      }
    }
  }

  /**
   * Every visit is either a member of the forest `fs` walked with parent
   * `parent`, or has as parent an earlier visit whose folder lists it as a
   * subfolder.
   */
  predicate ParentedIn(vs: seq<Visit>, parent: Option<nat>, next: nat, fs: seq<BookmarkFolder>)
  {
    forall k :: 0 <= k < |vs| ==> ParentedAt(vs, parent, next, fs, k)
  }

  /** Visit `k` of `vs` is a member of `fs` with parent `parent`, or a subfolder of its parent visit. */
  predicate ParentedAt(vs: seq<Visit>, parent: Option<nat>, next: nat, fs: seq<BookmarkFolder>, k: nat)
    requires k < |vs|
  {
    || (vs[k].parent == parent && vs[k].folder in fs)
    || (&& vs[k].parent.Some?
        && next <= vs[k].parent.value < next + k
        && vs[k].folder in vs[vs[k].parent.value - next].folder.subfolders)
  }

  lemma ParentedCons(v0: Visit, a: seq<Visit>, b: seq<Visit>, parent: Option<nat>, next: nat, fs: seq<BookmarkFolder>)
    requires fs != [] && v0 == Visit(next, parent, fs[0])
    requires ParentedIn(a, Some(next), next + 1, fs[0].subfolders)
    requires ParentedIn(b, parent, next + 1 + |a|, fs[1..])
    ensures ParentedIn([v0] + a + b, parent, next, fs)
  {
    var vs := [v0] + a + b;
    forall k | 0 <= k < |vs|
      ensures ParentedAt(vs, parent, next, fs, k)
    {
      if k == 0 {
      } else if k <= |a| {
        var i := k - 1;
        assert vs[k] == a[i];
        assert ParentedAt(a, Some(next), next + 1, fs[0].subfolders, i);
        if !(a[i].parent == Some(next) && a[i].folder in fs[0].subfolders) {
          var p := a[i].parent.value;
          assert vs[p - next] == a[p - (next + 1)];
        }
      } else {
        var i := k - 1 - |a|;
        assert vs[k] == b[i];
        assert ParentedAt(b, parent, next + 1 + |a|, fs[1..], i);
        if b[i].parent == parent && b[i].folder in fs[1..] {
          assert b[i].folder in fs;
        } else {
          var p := b[i].parent.value;
          assert vs[p - next] == b[p - (next + 1 + |a|)];
        }
      }
    }
  }

  lemma {:induction false} VisitParents(fs: seq<BookmarkFolder>, parent: Option<nat>, next: nat)
    ensures ParentedIn(Visits(fs, parent, next), parent, next, fs)
    decreases FolderCount(fs)
  {
    if fs != [] {
      var a := Visits(fs[0].subfolders, Some(next), next + 1);
      var b := Visits(fs[1..], parent, next + 1 + FolderCount(fs[0].subfolders));
      VisitParents(fs[0].subfolders, Some(next), next + 1);
      VisitParents(fs[1..], parent, next + 1 + FolderCount(fs[0].subfolders));
      VisitsLength(fs[0].subfolders, Some(next), next + 1);
      ParentedCons(Visit(next, parent, fs[0]), a, b, parent, next, fs);
    }
  }

  lemma {:induction false} TagLinksOverKind(keys: seq<string>, m: map<string, seq<string>>)
    requires forall t :: t in keys ==> t in m
    ensures forall l :: l in TagLinksOver(keys, m) ==> l.linkType == TagLink
  {
    if keys != [] {
      TagLinksOverKind(keys[..|keys| - 1], m);
      PairLinksCorrect(m[keys[|keys| - 1]]);
    }
  }

  lemma {:induction false} HierarchyIntoTagLinks(ls: seq<GraphLink>, t: NodeId)
    requires forall l :: l in ls ==> l.linkType == TagLink
    ensures HierarchyInto(ls, t) == 0
  {
    if ls != [] {
      assert ls[0] in ls;
      HierarchyIntoTagLinks(ls[1..], t);
    }
  }

  lemma HierarchyLinksKind(vs: seq<Visit>)
    ensures forall l :: l in HierarchyLinks(vs) ==> l.linkType == HierarchyLink
  {
    forall l | l in HierarchyLinks(vs)
      ensures l.linkType == HierarchyLink
    {
      var k := FlatMapWitness(vs, VisitLinks, l);
      assert VisitLinks(vs[k]) == ParentLink(vs[k]) + ContainmentLinks(vs[k].id, vs[k].folder.bookmarks);
    }
  }

  /** The links of a forest are its hierarchy links followed by its tag links. */
  lemma GraphLinksKinds(s: seq<BookmarkFolder>)
    ensures var vs := Visits(s, None, 0);
      && (forall l :: l in HierarchyLinks(vs) ==> l.linkType == HierarchyLink)
      && (forall l :: l in TagLinks(TagUses(vs)) ==> l.linkType == TagLink)
  {
    var vs := Visits(s, None, 0);
    var us := TagUses(vs);
    HierarchyLinksKind(vs);
    RecordFromEmpty(us);
    TagLinksOverKind(RecordUses(EmptyTagIndex, us).order, RecordUses(EmptyTagIndex, us).urls);
  }

  /** All hierarchy links come before all tag links. */
  lemma LinksOrdered(s: seq<BookmarkFolder>)
    ensures var ls := GraphLinks(s);
      forall i, j :: 0 <= i < j < |ls| && ls[j].linkType == HierarchyLink ==> ls[i].linkType == HierarchyLink
  {
    var vs := Visits(s, None, 0);
    var h := HierarchyLinks(vs);
    var t := TagLinks(TagUses(vs));
    GraphLinksKinds(s);
    var ls := GraphLinks(s);
    forall i, j | 0 <= i < j < |ls| && ls[j].linkType == HierarchyLink
      ensures ls[i].linkType == HierarchyLink
    {
      assert ls[i] == h[i];
      assert h[i] in h;
    }
  }

  /** Only the hierarchy part of the links counts towards HierarchyInto. */
  lemma HierarchyIntoGraph(s: seq<BookmarkFolder>, t: NodeId)
    ensures HierarchyInto(GraphLinks(s), t) == HierarchyInto(HierarchyLinks(Visits(s, None, 0)), t)
  {
    var vs := Visits(s, None, 0);
    GraphLinksKinds(s);
    HierarchyIntoAppend(HierarchyLinks(vs), TagLinks(TagUses(vs)), t);
    HierarchyIntoTagLinks(TagLinks(TagUses(vs)), t);
  }

  lemma FolderIncoming(s: seq<BookmarkFolder>, k: nat)
    requires k < |Visits(s, None, 0)|
    ensures var v := Visits(s, None, 0)[k];
      HierarchyInto(GraphLinks(s), FolderId(v.id)) == if v.parent.Some? then 1 else 0
  {
    var vs := Visits(s, None, 0);
    VisitIds(s, None, 0);
    HierarchyIntoGraph(s, FolderId(vs[k].id));
    NumberedIncoming(vs, k);
  }

  lemma NumberedIncoming(vs: seq<Visit>, k: nat)
    requires k < |vs| && NumberedFrom(vs, None, 0)
    ensures HierarchyInto(HierarchyLinks(vs), FolderId(vs[k].id)) == if vs[k].parent.Some? then 1 else 0
  {
    HierarchyIntoVisits(vs, FolderId(vs[k].id));
    ChildVisitsNumbered(vs, 0, vs[k].id);
  }

  lemma ParentLinkPresent(s: seq<BookmarkFolder>, k: nat)
    requires k < |Visits(s, None, 0)| && Visits(s, None, 0)[k].parent.Some?
    ensures var v := Visits(s, None, 0)[k];
      GraphLink(FolderId(v.parent.value), FolderId(v.id), HierarchyLink) in GraphLinks(s)
  {
    var vs := Visits(s, None, 0);
    var l := GraphLink(FolderId(vs[k].parent.value), FolderId(vs[k].id), HierarchyLink);
    assert l in VisitLinks(vs[k]);
    FlatMapMember(vs, VisitLinks, l);
  }

  /**
   * The hierarchy links of a forest: every non-root folder instance has exactly
   * one, from its parent (an earlier visit listing it as a subfolder), and a
   * root folder has none; a URL occurring in k places has k.
   */
  /** Each bookmark is linked from the folder that holds it, and every hierarchy link to a URL comes from such a folder. */
  lemma BookmarkLinksPlaced(s: seq<BookmarkFolder>)
    ensures var vs := Visits(s, None, 0);
      forall k, i :: 0 <= k < |vs| && 0 <= i < |vs[k].folder.bookmarks| ==>
        GraphLink(FolderId(vs[k].id), UrlId(vs[k].folder.bookmarks[i].url), HierarchyLink) in GraphLinks(s)
    ensures var vs := Visits(s, None, 0);
      forall l :: l in GraphLinks(s) && l.linkType == HierarchyLink && l.target.UrlId? ==>
        exists k, i ::
          && 0 <= k < |vs| && 0 <= i < |vs[k].folder.bookmarks|
          && l.source == FolderId(vs[k].id) && vs[k].folder.bookmarks[i].url == l.target.url
  {
    var vs := Visits(s, None, 0);
    forall k, i | 0 <= k < |vs| && 0 <= i < |vs[k].folder.bookmarks|
      ensures GraphLink(FolderId(vs[k].id), UrlId(vs[k].folder.bookmarks[i].url), HierarchyLink) in GraphLinks(s)
    {
      var bs := vs[k].folder.bookmarks;
      var l := GraphLink(FolderId(vs[k].id), UrlId(bs[i].url), HierarchyLink);
      assert l == ContainmentLinks(vs[k].id, bs)[i];
      assert l in VisitLinks(vs[k]);
      FlatMapMember(vs, VisitLinks, l);
    }
    GraphLinksKinds(s);
    forall l | l in GraphLinks(s) && l.linkType == HierarchyLink && l.target.UrlId?
      ensures exists k, i ::
        && 0 <= k < |vs| && 0 <= i < |vs[k].folder.bookmarks|
        && l.source == FolderId(vs[k].id) && vs[k].folder.bookmarks[i].url == l.target.url
    {
      assert l in HierarchyLinks(vs);
      var k := FlatMapWitness(vs, VisitLinks, l);
      var bs := vs[k].folder.bookmarks;
      assert l !in ParentLink(vs[k]);
      assert l in ContainmentLinks(vs[k].id, bs);
      var i :| 0 <= i < |bs| && l == ContainmentLinks(vs[k].id, bs)[i];
    }
  }

  lemma HierarchyLinksCorrect(s: seq<BookmarkFolder>)
    ensures var vs := Visits(s, None, 0);
      forall k :: 0 <= k < |vs| ==> vs[k].id == k
    ensures var vs := Visits(s, None, 0);
      forall k :: 0 <= k < |vs| ==>
        HierarchyInto(GraphLinks(s), FolderId(vs[k].id)) == if vs[k].parent.Some? then 1 else 0
    ensures var vs := Visits(s, None, 0);
      forall k :: 0 <= k < |vs| && vs[k].parent.None? ==> vs[k].folder in s
    ensures var vs := Visits(s, None, 0);
      forall k :: 0 <= k < |vs| && vs[k].parent.Some? ==>
        && vs[k].parent.value < k
        && vs[k].folder in vs[vs[k].parent.value].folder.subfolders
        && GraphLink(FolderId(vs[k].parent.value), FolderId(vs[k].id), HierarchyLink) in GraphLinks(s)
    ensures forall u :: HierarchyInto(GraphLinks(s), UrlId(u)) == UrlCount(AllBookmarks(s), u)
    ensures var vs := Visits(s, None, 0);
      forall k, i :: 0 <= k < |vs| && 0 <= i < |vs[k].folder.bookmarks| ==>
        GraphLink(FolderId(vs[k].id), UrlId(vs[k].folder.bookmarks[i].url), HierarchyLink) in GraphLinks(s)
    ensures var vs := Visits(s, None, 0);
      forall l :: l in GraphLinks(s) && l.linkType == HierarchyLink && l.target.UrlId? ==>
        exists k, i ::
          && 0 <= k < |vs| && 0 <= i < |vs[k].folder.bookmarks|
          && l.source == FolderId(vs[k].id) && vs[k].folder.bookmarks[i].url == l.target.url
  {
    var vs := Visits(s, None, 0);
    BookmarkLinksPlaced(s);
    VisitIds(s, None, 0);
    VisitParents(s, None, 0);
    forall k | 0 <= k < |vs|
      ensures HierarchyInto(GraphLinks(s), FolderId(vs[k].id)) == if vs[k].parent.Some? then 1 else 0
      ensures vs[k].parent.None? ==> vs[k].folder in s
      ensures vs[k].parent.Some? ==>
        && vs[k].parent.value < k
        && vs[k].folder in vs[vs[k].parent.value].folder.subfolders
        && GraphLink(FolderId(vs[k].parent.value), FolderId(vs[k].id), HierarchyLink) in GraphLinks(s)
    {
      FolderIncoming(s, k);
      assert ParentedAt(vs, None, 0, s, k);
      if vs[k].parent.Some? {
        ParentLinkPresent(s, k);
      }
    }
    VisitsBookmarks(s, None, 0);
    forall u
      ensures HierarchyInto(GraphLinks(s), UrlId(u)) == UrlCount(AllBookmarks(s), u)
    {
      HierarchyIntoGraph(s, UrlId(u));
      HierarchyIntoVisits(vs, UrlId(u));
    }
  }

  // ---------------------------------------------------------------------------
  // Node ids and link endpoints

  lemma UrlsMember(bs: seq<Bookmark>, b: Bookmark)
    requires b in bs
    ensures b.url in Urls(bs)
  {
    var i :| 0 <= i < |bs| && bs[i] == b;
    assert Urls(bs)[i] == b.url;
  }

  /** The node ids of the graph are exactly the folder ids 0 .. FolderCount-1 and the URLs of the bookmarks. */
  lemma GraphNodeIds(s: seq<BookmarkFolder>)
    ensures forall id :: id in Ids(GraphNodes(s)) <==>
      || (id.FolderId? && id.n < FolderCount(s))
      || (id.UrlId? && id.url in Urls(AllBookmarks(s)))
  {
    var vs := Visits(s, None, 0);
    var raw := RawNodes(vs);
    DedupByIdCorrect(raw);
    VisitIds(s, None, 0);
    VisitsLength(s, None, 0);
    VisitsBookmarks(s, None, 0);
    forall id
      ensures id in Ids(raw) <==>
        || (id.FolderId? && id.n < FolderCount(s))
        || (id.UrlId? && id.url in Urls(AllBookmarks(s)))
    {
      if id.FolderId? {
        if id.n < FolderCount(s) {
          RawNodesFolder(vs, None, 0, id.n);
        }
        if id in Ids(raw) {
          IdsMember(raw, id);
          var i :| 0 <= i < |raw| && raw[i].id == id;
          var j := FlatMapWitness(vs, VisitNodes, raw[i]);
          VisitNodesFolderId(vs[j], raw[i]);
        }
      } else {
        RawNodesUrl(vs, id.url);
      }
    }
  }

  lemma PairsByTagWitness(us: seq<TagUse>, tags: seq<string>, l: GraphLink) returns (t: string)
    requires l in PairsByTag(us, tags)
    ensures l in PairLinks(UrlsTagged(us, t))
  {
    var last := tags[|tags| - 1];
    if l in PairLinks(UrlsTagged(us, last)) {
      t := last;
    } else {
      t := PairsByTagWitness(us, tags[..|tags| - 1], l);
    }
  }

  lemma HierarchyLinkEnds(s: seq<BookmarkFolder>, l: GraphLink)
    requires l in HierarchyLinks(Visits(s, None, 0))
    ensures l.source in Ids(GraphNodes(s)) && l.target in Ids(GraphNodes(s))
  {
    var vs := Visits(s, None, 0);
    VisitIds(s, None, 0);
    VisitsLength(s, None, 0);
    VisitsBookmarks(s, None, 0);
    GraphNodeIds(s);
    var k := FlatMapWitness(vs, VisitLinks, l);
    var bs := vs[k].folder.bookmarks;
    if l !in ParentLink(vs[k]) {
      assert l in ContainmentLinks(vs[k].id, bs);
      var i :| 0 <= i < |bs| && l == GraphLink(FolderId(vs[k].id), UrlId(bs[i].url), HierarchyLink);
      FlatMapMember(vs, VisitBookmarks, bs[i]);
      UrlsMember(AllBookmarks(s), bs[i]);
    }
  }

  lemma TagLinkEnds(s: seq<BookmarkFolder>, l: GraphLink)
    requires l in TagLinks(TagUses(Visits(s, None, 0)))
    ensures l.source in Ids(GraphNodes(s)) && l.target in Ids(GraphNodes(s))
  {
    var us := TagUses(Visits(s, None, 0));
    TagLinksCorrect(s);
    GraphNodeIds(s);
    var t := PairsByTagWitness(us, TagOrder(us), l);
    var L := UrlsTagged(us, t);
    PairLinksCorrect(L);
    var i, j :| 0 <= i < j < |L| && l == PairLink(L, i, j);
    assert L[i] in L && L[j] in L;
    var bi :| bi in AllBookmarks(s) && bi.url == L[i] && t in TagsOf(bi);
    var bj :| bj in AllBookmarks(s) && bj.url == L[j] && t in TagsOf(bj);
    UrlsMember(AllBookmarks(s), bi);
    UrlsMember(AllBookmarks(s), bj);
  }

  /** Every link's source and target is the id of a node of the graph. */
  lemma LinkEndpoints(s: seq<BookmarkFolder>)
    ensures forall l :: l in GraphLinks(s) ==> l.source in Ids(GraphNodes(s)) && l.target in Ids(GraphNodes(s))
  {
    var vs := Visits(s, None, 0);
    forall l | l in GraphLinks(s)
      ensures l.source in Ids(GraphNodes(s)) && l.target in Ids(GraphNodes(s))
    {
      if l in HierarchyLinks(vs) {
        HierarchyLinkEnds(s, l);
      } else {
        TagLinkEnds(s, l);
      }
    }
  }

  /** An empty forest gives no nodes and no links. */
  lemma EmptyForest()
    ensures GraphNodes([]) == [] && GraphLinks([]) == []
  {
    assert TagUses([]) == [];
    assert RecordUses(EmptyTagIndex, []) == EmptyTagIndex;
  }
}
