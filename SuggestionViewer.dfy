/**
 * The tag editor of a bookmark in the suggestion viewer
 * (components/SuggestionViewer.tsx): the text the editor opens with, and the
 * normalisation of the edited text back into a tag list when it is saved
 * (split on commas, trim, lowercase, drop empty pieces, drop repeats).
 */
module SuggestionViewer {
  import opened Types
  import opened Text
  import opened Seqs

  /** `bookmark.tags?.join(', ') || ''`: the tags separated by a comma and a space. */
  function EditBuffer(b: Bookmark): (r: string)
    ensures TagsOf(b) == [] ==> r == ""
  {
    Join(TagsOf(b), ", ")
  }

  /** `t.trim().toLowerCase()`. */
  function Clean(piece: string): string
  {
    Lower(Trim(piece))
  }

  /** A cleaned piece has no surrounding whitespace, no capitals, and no comma it did not have. */
  lemma CleanIsClean(piece: string)
    ensures IsTrimmed(Clean(piece)) && Lower(Clean(piece)) == Clean(piece)
    ensures ',' in Clean(piece) ==> ',' in piece
  {
    TrimIsTrimmed(piece);
    LowerKeepsTrimmed(Trim(piece));
    LowerIdempotent(Trim(piece));
    TrimWithin(piece);
    LowerAt(Trim(piece));
  }

  /** Trimming only removes characters. */
  lemma TrimWithin(s: string)
    ensures forall c :: c in Trim(s) ==> c in s
  {
    var t := TrimStart(s);
    assert forall c :: c in t ==> c in s by {
      forall c | c in t ensures c in s {
        var k :| 0 <= k < |t| && t[k] == c;
        assert s[|s| - |t| + k] == c;
      }
    }
  }

  /** The pieces of a split, each trimmed and lowercased. */
  function Cleaned(pieces: seq<string>): (r: seq<string>)
    ensures |r| == |pieces|
    ensures forall i :: 0 <= i < |pieces| ==> r[i] == Clean(pieces[i])
  {
    if pieces == [] then []
    else
      var rest := Cleaned(pieces[1..]);
      assert forall i :: 1 <= i < |pieces| ==> rest[i - 1] == Clean(pieces[i]);
      [Clean(pieces[0])] + rest
  }

  /** Every cleaned piece is trimmed and lowercase, and comma-free when the pieces were. */
  lemma CleanedClean(pieces: seq<string>)
    ensures forall t :: t in Cleaned(pieces) ==> IsTrimmed(t) && Lower(t) == t
    ensures (forall i :: 0 <= i < |pieces| ==> ',' !in pieces[i]) ==> forall t :: t in Cleaned(pieces) ==> ',' !in t
  {
    var r := Cleaned(pieces);
    forall i | 0 <= i < |r| ensures IsTrimmed(r[i]) && Lower(r[i]) == r[i] && (',' in r[i] ==> ',' in pieces[i]) {
      CleanIsClean(pieces[i]);
    }
  }

  /** `.filter(t => t.length > 0)`. */
  function NonEmpty(ts: seq<string>): (r: seq<string>)
    ensures forall t :: t in r <==> t in ts && t != ""
  {
    if ts == [] then []
    else if ts[0] == "" then NonEmpty(ts[1..])
    else [ts[0]] + NonEmpty(ts[1..])
  }

  /** The position of the first occurrence of `x` in `ts`. */
  function First(ts: seq<string>, x: string): (k: nat)
    requires x in ts
    ensures k < |ts| && ts[k] == x && x !in ts[..k]
  {
    if ts[0] == x then 0 else 1 + First(ts[1..], x)
  }

  /** Appending leaves the first occurrence of an element already present where it was. */
  lemma {:induction false} FirstSnoc(ts: seq<string>, y: string, x: string)
    requires x in ts
    ensures First(ts + [y], x) == First(ts, x)
  {
    if ts[0] != x {
      assert (ts + [y])[1..] == ts[1..] + [y];
      FirstSnoc(ts[1..], y, x);
    }
  }

  /**
   * `[...new Set(ts)]`: each element once, at its first occurrence (a `Set`
   * iterates in insertion order).
   */
  function Dedup(ts: seq<string>): (r: seq<string>)
    ensures forall x :: x in r <==> x in ts
    ensures forall i, j :: 0 <= i < j < |r| ==> r[i] != r[j]
    ensures forall i, j :: 0 <= i < j < |r| ==> First(ts, r[i]) < First(ts, r[j])
  {
    if ts == [] then []
    else
      var n := |ts| - 1;
      var d := Dedup(ts[..n]);
      assert ts == ts[..n] + [ts[n]];
      assert forall x :: x in ts[..n] ==> First(ts, x) == First(ts[..n], x) by {
        forall x | x in ts[..n] ensures First(ts, x) == First(ts[..n], x) {
          FirstSnoc(ts[..n], ts[n], x);
        }
      }
      if ts[n] in d then d else d + [ts[n]]
  }

  /** The tag list a save produces from the edit text. */
  function NormalizeTags(text: string): (r: seq<string>)
    ensures forall t :: t in r <==> t != "" && t in Cleaned(Split(text, ','))
    ensures forall t :: t in r ==> IsTrimmed(t) && Lower(t) == t && ',' !in t
    ensures forall i, j :: 0 <= i < j < |r| ==> r[i] != r[j]
  {
    CleanedClean(Split(text, ','));
    Dedup(NonEmpty(Cleaned(Split(text, ','))))
  }

  // ---------------------------------------------------------------------------
  // Order

  /** Dropping empty pieces keeps the relative order of first occurrences of the others. */
  lemma {:induction false} NonEmptyFirst(ts: seq<string>, x: string, y: string)
    requires x != "" && y != "" && x in ts && y in ts
    ensures First(NonEmpty(ts), x) < First(NonEmpty(ts), y) <==> First(ts, x) < First(ts, y)
  {
    if ts[0] != x && ts[0] != y {
      NonEmptyFirst(ts[1..], x, y);
      if ts[0] != "" {
        assert NonEmpty(ts)[1..] == NonEmpty(ts[1..]);
      }
    }
  }

  /**
   * The saved tags keep the order in which they first occur among the
   * normalised pieces of the edit text.
   */
  lemma NormalizeKeepsFirstOrder(text: string)
    ensures var pieces, r := Cleaned(Split(text, ',')), NormalizeTags(text);
      forall i, j :: 0 <= i < j < |r| ==> First(pieces, r[i]) < First(pieces, r[j])
  {
    var pieces := Cleaned(Split(text, ','));
    var kept := NonEmpty(pieces);
    var r := Dedup(kept);
    assert r == NormalizeTags(text);
    forall i, j | 0 <= i < j < |r| ensures First(pieces, r[i]) < First(pieces, r[j]) {
      assert r[i] in kept && r[j] in kept;
      assert r[i] in pieces && r[j] in pieces && r[i] != "" && r[j] != "";
      assert First(kept, r[i]) < First(kept, r[j]);
      NonEmptyFirst(pieces, r[i], r[j]);
    }
  }

  // ---------------------------------------------------------------------------
  // Round trip through the editor

  /** Tags that a save leaves as they are: non-empty, trimmed, lowercase, comma-free, distinct. */
  predicate CleanTags(tags: seq<string>)
  {
    && (forall i :: 0 <= i < |tags| ==> tags[i] != "" && IsTrimmed(tags[i]) && Lower(tags[i]) == tags[i] && ',' !in tags[i])
    && (forall i, j :: 0 <= i < j < |tags| ==> tags[i] != tags[j])
  }

  /**
   * The pieces a split on the comma finds in a join with the comma followed by
   * `w`: every piece after the first starts with `w`.
   */
  function Spaced(w: string, tags: seq<string>): seq<string>
  {
    if tags == [] then [] else [tags[0]] + Padded(w, tags[1..])
  }

  /** Each of `ps` with `w` in front. */
  function Padded(w: string, ps: seq<string>): (r: seq<string>)
    ensures |r| == |ps| && forall i :: 0 <= i < |ps| ==> r[i] == w + ps[i]
  {
    if ps == [] then [] else [w + ps[0]] + Padded(w, ps[1..])
  }

  lemma JoinPrefixHead(w: string, ps: seq<string>, sep: string)
    requires ps != []
    ensures w + Join(ps, sep) == Join([w + ps[0]] + ps[1..], sep)
  {
    var qs := [w + ps[0]] + ps[1..];
    assert qs[1..] == ps[1..];
    if |ps| > 1 {
      var rest := Join(ps[1..], sep);
      assert w + (ps[0] + sep + rest) == (w + ps[0]) + sep + rest;
    }
  }

  /** Joining with `c` followed by `w` is joining the spaced pieces with `c` alone. */
  lemma {:induction false} JoinPadded(tags: seq<string>, c: string, w: string)
    ensures Join(tags, c + w) == Join(Spaced(w, tags), c)
  {
    if |tags| > 1 {
      var tail := tags[1..];
      JoinPadded(tail, c, w);
      var sp := Spaced(w, tail);
      var more := Padded(w, tags[2..]);
      assert tail[1..] == tags[2..];
      assert sp == [tags[1]] + more;
      assert Padded(w, tags[1..]) == [w + tags[1]] + more;
      JoinPrefixHead(w, sp, c);
      assert Spaced(w, tags) == [tags[0]] + ([w + sp[0]] + sp[1..]);
      var rest := Join(sp, c);
      assert tags[0] + (c + w) + rest == tags[0] + c + (w + rest);
    } else if |tags| == 1 {
      assert Spaced(w, tags) == tags;
    }
  }

  lemma CleanOfClean(t: string)
    requires IsTrimmed(t) && Lower(t) == t
    ensures Clean(t) == t
  {
    TrimIsTrimmed(t);
  }

  lemma CleanAfterSpace(w: string, t: string)
    requires AllSpace(w) && IsTrimmed(t) && Lower(t) == t
    ensures Clean(w + t) == t
  {
    TrimIsTrimmed(t);
    TrimAfterSpaces(w, t);
  }

  lemma CleanPadded(w: string, ps: seq<string>)
    requires AllSpace(w)
    requires forall i :: 0 <= i < |ps| ==> IsTrimmed(ps[i]) && Lower(ps[i]) == ps[i]
    ensures Cleaned(Padded(w, ps)) == ps
  {
    var r := Cleaned(Padded(w, ps));
    forall i | 0 <= i < |ps| ensures r[i] == ps[i] {
      CleanAfterSpace(w, ps[i]);
    }
  }

  lemma CleanSpaced(w: string, tags: seq<string>)
    requires AllSpace(w)
    requires forall i :: 0 <= i < |tags| ==> IsTrimmed(tags[i]) && Lower(tags[i]) == tags[i]
    ensures Cleaned(Spaced(w, tags)) == tags
  {
    if tags != [] {
      var tail := tags[1..];
      var rest := Padded(w, tail);
      assert Cleaned(rest) == tail by {
        CleanPadded(w, tail);
      }
      assert Clean(tags[0]) == tags[0] by {
        CleanOfClean(tags[0]);
      }
      var x := [tags[0]] + rest;
      assert x[0] == tags[0] && x[1..] == rest;
      assert tags == [tags[0]] + tail;
    }
  }

  lemma {:induction false} NonEmptyAll(ts: seq<string>)
    requires forall i :: 0 <= i < |ts| ==> ts[i] != ""
    ensures NonEmpty(ts) == ts
  {
    if ts != [] {
      NonEmptyAll(ts[1..]);
      assert ts == [ts[0]] + ts[1..];
    }
  }

  lemma {:induction false} DedupDistinct(ts: seq<string>)
    requires forall i, j :: 0 <= i < j < |ts| ==> ts[i] != ts[j]
    ensures Dedup(ts) == ts
  {
    if ts != [] {
      var n := |ts| - 1;
      var init := ts[..n];
      DedupDistinct(init);
      assert ts[n] !in init by {
        forall k | 0 <= k < n ensures init[k] != ts[n] {
          assert init[k] == ts[k];
        }
      }
      BackSplit(ts);
    }
  }

  /** Saving the joined text of clean tags gives the same tags back. */
  lemma NormalizeJoined(tags: seq<string>)
    requires CleanTags(tags)
    ensures NormalizeTags(Join(tags, ", ")) == tags
  {
    if tags == [] {
      assert Split("", ',') == [""];
      assert Cleaned([""]) == [""];
    } else {
      var comma, w := [','], " ";
      assert comma + w == ", " && AllSpace(w) && ',' !in w;
      JoinPadded(tags, comma, w);
      var sp := Spaced(w, tags);
      assert forall i :: 0 <= i < |sp| ==> ',' !in sp[i];
      SplitJoin(sp, ',');
      CleanSpaced(w, tags);
      NonEmptyAll(tags);
      DedupDistinct(tags);
    }
  }

  /** Opening the editor and saving without typing leaves clean tags as they were. */
  lemma EditRoundTrip(b: Bookmark)
    requires CleanTags(TagsOf(b))
    ensures NormalizeTags(EditBuffer(b)) == TagsOf(b)
  {
    NormalizeJoined(TagsOf(b));
  }

  /** A second save of a saved tag list changes nothing. */
  lemma NormalizeIdempotent(text: string)
    ensures NormalizeTags(Join(NormalizeTags(text), ", ")) == NormalizeTags(text)
  {
    var r := NormalizeTags(text);
    assert forall i :: 0 <= i < |r| ==> r[i] in r;
    NormalizeJoined(r);
  }
}
