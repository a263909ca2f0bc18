/**
  Generic facts about sequences, stated once so that the proofs about
  strings, batches and traces can cite them instead of re-deriving them on
  concrete element types.
 */
module Seqs {
  lemma Associative<T>(a: seq<T>, b: seq<T>, c: seq<T>)
    ensures (a + b) + c == a + (b + c)
  {
  }

  lemma AppendTwo<T>(s: seq<T>, t: seq<T>, x: T, y: T)
    ensures s + t + [x] + [y] == s + (t + [x, y])
  {
  }

  lemma AppendSecond<T>(x: T, y: T)
    ensures [x] + [y] == [x, y]
  {
  }

  lemma AppendThird<T>(x: T, y: T, z: T)
    ensures [x, y] + [z] == [x, y, z]
  {
  }

  lemma SnocLast<T>(s: seq<T>)
    requires s != []
    ensures s[..|s| - 1] + [s[|s| - 1]] == s
  {
  }

  lemma SnocParts<T>(s: seq<T>, x: T)
    ensures (s + [x])[..|s|] == s && (s + [x])[|s|] == x && |s + [x]| == |s| + 1
  {
  }

  lemma PrefixSnoc<T>(s: seq<T>, i: nat)
    requires i < |s|
    ensures s[..i + 1] == s[..i] + [s[i]]
  {
  }

  lemma ReplaceLastParts<T>(s: seq<T>, x: T)
    requires s != []
    ensures var t := s[..|s| - 1] + [x];
      |t| == |s| && t[..|t| - 1] == s[..|s| - 1] && t[|t| - 1] == x
  {
  }

  lemma SliceAfter<T>(a: seq<T>, b: seq<T>, c: seq<T>, n: nat)
    requires n <= |a|
    ensures (a + b + c)[n..] == a[n..] + b + c
    ensures forall i :: 0 <= i < n ==> (a + b + c)[i] == a[i]
    ensures a == [] ==> a + b + c == b + c
  {
  }
}
