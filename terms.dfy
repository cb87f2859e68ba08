/**
 * Term lists: one (inclusions, exclusions) pair per disjunct of a query, the
 * orderings Qt uses on strings, string lists and pairs, and the two-pointer
 * merge that `std::ranges::merge` performs on them.
 */
module Terms {

  /** `QPair<QStringList, QStringList>`: terms that must all occur, terms none of which may occur. */
  datatype QueryPair = QueryPair(inclusions: seq<string>, exclusions: seq<string>)

  /** A pair satisfied when every inclusion is true and every exclusion false. */
  predicate Satisfies(q: QueryPair, env: string -> bool) {
    (forall t :: t in q.inclusions ==> env(t)) && (forall t :: t in q.exclusions ==> !env(t))
  }

  /** `operator<` on QString: lexicographic on the characters. */
  predicate StrLess(a: string, b: string) {
    if a == [] then b != []
    else if b == [] then false
    else if a[0] != b[0] then a[0] < b[0]
    else StrLess(a[1..], b[1..])
  }

  /** `operator<` on QStringList (`std::lexicographical_compare` with StrLess). */
  predicate ListLess(a: seq<string>, b: seq<string>) {
    if a == [] then b != []
    else if b == [] then false
    else if StrLess(a[0], b[0]) then true
    else if StrLess(b[0], a[0]) then false
    else ListLess(a[1..], b[1..])
  }

  /** `operator<` on QPair: first components, then second ones. */
  predicate PairLess(p: QueryPair, q: QueryPair) {
    ListLess(p.inclusions, q.inclusions)
    || (!ListLess(q.inclusions, p.inclusions) && ListLess(p.exclusions, q.exclusions))
  }

  /** No element is less than its predecessor. */
  predicate Sorted<T>(s: seq<T>, lt: (T, T) -> bool) {
    forall i | 0 < i < |s| :: !lt(s[i], s[i - 1])
  }

  /**
   * `std::ranges::merge`: repeatedly take the head of `ys` if it is less than
   * the head of `xs`, otherwise the head of `xs`; then the remainder.
   */
  function Merge<T>(xs: seq<T>, ys: seq<T>, lt: (T, T) -> bool): (r: seq<T>)
    ensures |r| == |xs| + |ys|
    ensures multiset(r) == multiset(xs) + multiset(ys)
    ensures r != [] ==> (xs != [] && r[0] == xs[0]) || (ys != [] && r[0] == ys[0])
    decreases |xs| + |ys|
  {
    if xs == [] then ys
    else if ys == [] then xs
    else if lt(ys[0], xs[0]) then
      assert ys == [ys[0]] + ys[1..];
      [ys[0]] + Merge(xs, ys[1..], lt)
    else
      assert xs == [xs[0]] + xs[1..];
      [xs[0]] + Merge(xs[1..], ys, lt)
  }

  /** Merging two sorted lists under an asymmetric order gives a sorted list. */
  lemma {:induction false} MergeSorted<T>(xs: seq<T>, ys: seq<T>, lt: (T, T) -> bool)
    requires forall a, b :: lt(a, b) ==> !lt(b, a)
    requires Sorted(xs, lt) && Sorted(ys, lt)
    ensures Sorted(Merge(xs, ys, lt), lt)
    decreases |xs| + |ys|
  {
    if xs == [] || ys == [] {
    } else if lt(ys[0], xs[0]) {
      var rest := Merge(xs, ys[1..], lt);
      MergeSorted(xs, ys[1..], lt);
      var r := [ys[0]] + rest;
      assert r == Merge(xs, ys, lt);
      forall i | 0 < i < |r| ensures !lt(r[i], r[i - 1]) {
        if i == 1 {
          if rest[0] == xs[0] {
            assert !lt(xs[0], ys[0]);
          } else {
            assert rest[0] == ys[1];
          }
        } else {
          assert r[i] == rest[i - 1] && r[i - 1] == rest[i - 2];
        }
      }
    } else {
      var rest := Merge(xs[1..], ys, lt);
      MergeSorted(xs[1..], ys, lt);
      var r := [xs[0]] + rest;
      assert r == Merge(xs, ys, lt);
      forall i | 0 < i < |r| ensures !lt(r[i], r[i - 1]) {
        if i == 1 {
          if rest[0] == ys[0] {
            assert !lt(ys[0], xs[0]);
          } else {
            assert rest[0] == xs[1];
          }
        } else {
          assert r[i] == rest[i - 1] && r[i - 1] == rest[i - 2];
        }
      }
    }
  }

  /** Every element of a merge comes from one of the inputs, and every input element is in it. */
  lemma MergeMembers<T>(xs: seq<T>, ys: seq<T>, lt: (T, T) -> bool, x: T)
    ensures x in Merge(xs, ys, lt) <==> x in xs || x in ys
  {
    var r := Merge(xs, ys, lt);
    assert x in r <==> x in multiset(r);
    assert x in xs <==> x in multiset(xs);
    assert x in ys <==> x in multiset(ys);
  }

  lemma {:induction false} StrLessAsymmetric(a: string, b: string)
    ensures StrLess(a, b) ==> !StrLess(b, a)
  {
    if a != [] && b != [] && a[0] == b[0] {
      StrLessAsymmetric(a[1..], b[1..]);
    }
  }

  lemma {:induction false} ListLessAsymmetric(a: seq<string>, b: seq<string>)
    ensures ListLess(a, b) ==> !ListLess(b, a)
  {
    if a != [] && b != [] {
      StrLessAsymmetric(a[0], b[0]);
      ListLessAsymmetric(a[1..], b[1..]);
    }
  }

  /** The three orders are strict: never both `p < q` and `q < p`. */
  lemma PairLessAsymmetric()
    ensures forall a, b :: StrLess(a, b) ==> !StrLess(b, a)
    ensures forall a, b :: ListLess(a, b) ==> !ListLess(b, a)
    ensures forall p, q :: PairLess(p, q) ==> !PairLess(q, p)
  {
    forall a, b ensures StrLess(a, b) ==> !StrLess(b, a) {
      StrLessAsymmetric(a, b);
    }
    forall a, b ensures ListLess(a, b) ==> !ListLess(b, a) {
      ListLessAsymmetric(a, b);
    }
    forall p: QueryPair, q: QueryPair ensures PairLess(p, q) ==> !PairLess(q, p) {
      ListLessAsymmetric(p.inclusions, q.inclusions);
      ListLessAsymmetric(q.inclusions, p.inclusions);
      ListLessAsymmetric(p.exclusions, q.exclusions);
    }
  }

  /** Merging two sorted term lists (as `getQueryLists` does) keeps them sorted. */
  lemma MergeStringsSorted(xs: seq<string>, ys: seq<string>)
    requires Sorted(xs, StrLess) && Sorted(ys, StrLess)
    ensures Sorted(Merge(xs, ys, StrLess), StrLess)
  {
    PairLessAsymmetric();
    MergeSorted(xs, ys, StrLess);
  }
}
