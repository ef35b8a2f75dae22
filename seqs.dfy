/**
 * Facts about sequences that hold whatever the elements are: regrouping
 * concatenations, taking prefixes, and reading parts back off a
 * concatenation.
 */
module Seqs {
  /** Concatenation is associative. */
  lemma AppendAssoc<T>(a: seq<T>, b: seq<T>, c: seq<T>)
    ensures a + (b + c) == (a + b) + c
  {
  }

  /** A non-empty sequence is its head followed by its tail. */
  lemma ConsSplit<T>(s: seq<T>)
    requires s != []
    ensures [s[0]] + s[1..] == s
  {
  }

  /** The first `k + 1` elements are the head followed by the first `k` of the tail. */
  lemma TakeCons<T>(s: seq<T>, k: nat)
    requires k < |s|
    ensures [s[0]] + s[1..][..k] == s[..k + 1]
  {
  }

  /** The first `j + 1` elements are the first `j` followed by the `j`-th. */
  lemma TakeSnoc<T>(s: seq<T>, j: nat)
    requires j < |s|
    ensures s[..j + 1] == s[..j] + [s[j]]
  {
  }

  /** No element occurs twice. */
  predicate Distinct<T(==)>(s: seq<T>) {
    forall a, b :: 0 <= a < b < |s| ==> s[a] != s[b]
  }

  /** Dropping the head keeps the elements distinct. */
  lemma DistinctTail<T>(s: seq<T>)
    requires s != [] && Distinct(s)
    ensures Distinct(s[1..])
  {
    forall a, b | 0 <= a < b < |s[1..]| ensures s[1..][a] != s[1..][b] {
      assert s[1..][a] == s[a + 1] && s[1..][b] == s[b + 1];
    }
  }

  /** An element of the second part sits after the whole first part. */
  lemma AppendAt<T>(a: seq<T>, b: seq<T>, m: nat)
    requires m < |b|
    ensures |a| + m < |a + b| && (a + b)[|a| + m] == b[m]
  {
  }

  /** Appending two more parts to `h + a` is appending them to `a`. */
  lemma Regroup<T>(h: seq<T>, a: seq<T>, b: seq<T>, c: seq<T>)
    ensures h + a + b + c == h + (a + b + c)
  {
  }

  /** Three consecutive parts can be read back off their concatenation. */
  lemma Framed<T>(h: seq<T>, m: seq<T>, f: seq<T>)
    ensures (h + m + f)[..|h|] == h
    ensures (h + m + f)[|h|..|h| + |m|] == m
    ensures (h + m + f)[|h| + |m|..] == f
  {
  }
}
