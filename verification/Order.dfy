/** The lexicographic order used for JSON keys, coin denominations and database keys. */
module Order {

  predicate Less<T>(a: seq<T>, b: seq<T>, rank: T -> int)
    decreases |a|
  {
    |b| > 0 && (|a| == 0 || rank(a[0]) < rank(b[0]) || (rank(a[0]) == rank(b[0]) && Less(a[1..], b[1..], rank)))
  }

  function CharRank(c: char): (r: int) { c as int }

  predicate StringLess(a: string, b: string) {
    Less(a, b, CharRank)
  }

  lemma {:induction false} LessIrreflexive<T>(a: seq<T>, rank: T -> int)
    ensures !Less(a, a, rank)
    decreases |a|
  {
    if |a| == 0 {
    } else {
      LessIrreflexive(a[1..], rank);
    }
  }

  lemma {:induction false} LessTransitive<T>(a: seq<T>, b: seq<T>, c: seq<T>, rank: T -> int)
    requires Less(a, b, rank) && Less(b, c, rank)
    ensures Less(a, c, rank)
    decreases |a|
  {
    if |a| > 0 && rank(a[0]) == rank(b[0]) == rank(c[0]) {
      LessTransitive(a[1..], b[1..], c[1..], rank);
    }
  }

  lemma {:induction false} LessTotal<T(!new)>(a: seq<T>, b: seq<T>, rank: T -> int)
    requires forall x, y :: rank(x) == rank(y) ==> x == y
    ensures a == b || Less(a, b, rank) || Less(b, a, rank)
    decreases |a|
  {
    if |a| > 0 && |b| > 0 && rank(a[0]) == rank(b[0]) {
      LessTotal(a[1..], b[1..], rank);
      assert a == [a[0]] + a[1..] && b == [b[0]] + b[1..];
    }
  }

  lemma StringTotal(a: string, b: string)
    ensures a == b || StringLess(a, b) || StringLess(b, a)
  {
    LessTotal(a, b, CharRank);
  }

  lemma StringAsymmetric(a: string, b: string)
    requires StringLess(a, b)
    ensures a != b && !StringLess(b, a)
  {
    LessIrreflexive(a, CharRank);
    if StringLess(b, a) {
      LessTransitive(a, b, a, CharRank);
    }
  }

  lemma StringTransitive(a: string, b: string, c: string)
    requires StringLess(a, b) && StringLess(b, c)
    ensures StringLess(a, c)
  {
    LessTransitive(a, b, c, CharRank);
  }
}
