// Small facts about sequence concatenation, stated once so that larger proofs
// can use them without the solver rediscovering them.

module Seqs {

  lemma AppendNothing<T>(s: seq<T>)
    ensures s + [] == s
  {
  }

  lemma AppendAssoc<T>(a: seq<T>, b: seq<T>, c: seq<T>)
    ensures (a + b) + c == a + (b + c)
  {
  }

  /** One more element of `b` taken after `a`. */
  lemma PrefixSnoc<T>(a: seq<T>, b: seq<T>, j: nat)
    requires j < |b|
    ensures a + b[..j + 1] == (a + b[..j]) + [b[j]]
  {
    assert b[..j + 1] == b[..j] + [b[j]];
    AppendAssoc(a, b[..j], [b[j]]);
  }

  /** The ends of a concatenation are the ends of its parts. */
  /** A sequence is what comes before position `k`, the element there, and what comes after. */
  lemma SplitAround<T>(s: seq<T>, k: nat)
    requires k < |s|
    ensures s == (s[..k] + [s[k]]) + s[k + 1..]
  {
    assert s == s[..k + 1] + s[k + 1..];
    assert s[..k + 1] == s[..k] + [s[k]];
  }

  lemma AppendEnds<T>(a: seq<T>, b: seq<T>)
    requires b != []
    ensures a != [] ==> (a + b)[0] == a[0]
    ensures (a + b)[|a + b| - 1] == b[|b| - 1]
  {
  }

  /** Equal concatenations with a common prefix and suffix have equal middles. */
  lemma CancelEnds<T>(p: seq<T>, a: seq<T>, b: seq<T>, t: seq<T>)
    ensures p + a + t == p + b + t ==> a == b
  {
    if p + a + t == p + b + t {
      assert a == (p + a + t)[|p|..|p| + |a|];
    }
  }
}
