/**
 `core::cmp::Ordering`, and comparison of integers and of sequences.
 */
module Ordering {
  datatype Order = Less | Equal | Greater

  function Reverse(o: Order): Order {
    match o
    case Less => Greater
    case Equal => Equal
    case Greater => Less
  }

  function CompareInts(a: int, b: int): Order {
    if a < b then Less else if a > b then Greater else Equal
  }

  /** Lexicographic order: the first difference decides, and a proper prefix is less. */
  function CompareSeqs(a: seq<int>, b: seq<int>): Order {
    if a == [] || b == [] then CompareInts(|a|, |b|)
    else if a[0] != b[0] then CompareInts(a[0], b[0])
    else CompareSeqs(a[1..], b[1..])
  }

  // ---------------------------------------------------------------- the order of sequences

  lemma {:induction false} SeqsReverse(a: seq<int>, b: seq<int>)
    ensures CompareSeqs(b, a) == Reverse(CompareSeqs(a, b))
  {
    if a != [] && b != [] && a[0] == b[0] {
      SeqsReverse(a[1..], b[1..]);
    }
  }

  lemma {:induction false} SeqsEqual(a: seq<int>, b: seq<int>)
    ensures CompareSeqs(a, b) == Equal <==> a == b
  {
    if a != [] && b != [] && a[0] == b[0] {
      SeqsEqual(a[1..], b[1..]);
      assert a == [a[0]] + a[1..] && b == [b[0]] + b[1..];
    }
  }

  lemma {:induction false} SeqsTransitive(a: seq<int>, b: seq<int>, c: seq<int>)
    requires CompareSeqs(a, b) != Greater && CompareSeqs(b, c) != Greater
    ensures CompareSeqs(a, c) != Greater
  {
    if a != [] && b != [] && c != [] && a[0] == b[0] == c[0] {
      SeqsTransitive(a[1..], b[1..], c[1..]);
    }
  }

  /** Where two sequences first differ, or the first of them ends, their order is decided. */
  lemma {:induction false} SeqsDecidedAt(a: seq<int>, b: seq<int>, i: nat)
    requires i <= |a| && i <= |b| && a[..i] == b[..i]
    requires i < |a| && i < |b| ==> a[i] != b[i]
    ensures CompareSeqs(a, b) == Less <==> if i < |a| && i < |b| then a[i] < b[i] else |a| < |b|
    ensures CompareSeqs(a, b) == Greater <==> if i < |a| && i < |b| then a[i] > b[i] else |a| > |b|
  {
    if i > 0 {
      assert a[0] == a[..i][0] && b[0] == b[..i][0];
      assert a[1..][..i - 1] == a[..i][1..] && b[1..][..i - 1] == b[..i][1..];
      SeqsDecidedAt(a[1..], b[1..], i - 1);
    }
  }
}
