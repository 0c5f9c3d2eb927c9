/** Sequence facts shared by the builders and the recursive definitions over sequences. */
module Seqs {

  /** Appending `a` and then `b` to `o` appends `a + b`. */
  lemma AppendStep<T>(o: seq<T>, s0: seq<T>, s1: seq<T>, a: seq<T>, b: seq<T>, ab: seq<T>)
    requires s0 == o + a && s1 == s0 + b && ab == a + b
    ensures s1 == o + ab
  {
  }

  /** The head and tail of `a + b` when `a` is not empty. */
  lemma AppendFront<T>(a: seq<T>, b: seq<T>)
    requires a != []
    ensures (a + b)[0] == a[0] && (a + b)[1..] == a[1..] + b
  {
  }

  /** The last element and the rest of `a + b` when `b` is not empty. */
  lemma AppendBack<T>(a: seq<T>, b: seq<T>)
    requires b != []
    ensures (a + b)[|a + b| - 1] == b[|b| - 1] && (a + b)[..|a + b| - 1] == a + b[..|b| - 1]
  {
  }

  /** A non-empty sequence is its front followed by its last element. */
  lemma BackSplit<T>(s: seq<T>)
    requires s != []
    ensures s == s[..|s| - 1] + [s[|s| - 1]]
  {
  }

  /** The three parts of `a + b + c`, cut back out by position. */
  lemma Sandwich<T>(a: seq<T>, b: seq<T>, c: seq<T>)
    ensures var s := a + b + c;
      && |a| + |c| <= |s|
      && s[..|a|] == a && s[|s| - |c|..] == c && s[|a|..|s| - |c|] == b
  {
    var s := a + b + c;
    assert s[..|a|] == a;
    assert s[|s| - |c|..] == c;
    assert s[|a|..|s| - |c|] == b;
  }
}
