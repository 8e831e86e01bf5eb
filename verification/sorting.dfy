/** `Array.prototype.sort` with a comparator function. ECMAScript requires
    the sort to be stable; it is modelled as an insertion sort that places a
    later element after every earlier element it does not precede. */
module Sorting {

  /** A JavaScript comparator whose "not after" relation (`cmp(a, b) <= 0`)
      is a total preorder: the condition under which `sort` is well defined. */
  ghost predicate Consistent<T(!new)>(cmp: (T, T) -> int) {
    && (forall a, b :: cmp(a, b) <= 0 || cmp(b, a) <= 0)
    && (forall a, b, c :: cmp(a, b) <= 0 && cmp(b, c) <= 0 ==> cmp(a, c) <= 0)
  }

  /** Every element is "not after" each element that follows it. */
  ghost predicate Sorted<T>(s: seq<T>, cmp: (T, T) -> int) {
    forall i, j | 0 <= i < j < |s| :: cmp(s[i], s[j]) <= 0
  }

  /** Places `x` after the last element of `r` that is not after it. */
  function Insert<T>(r: seq<T>, x: T, cmp: (T, T) -> int): (q: seq<T>)
    ensures multiset(q) == multiset(r) + multiset{x}
    ensures |q| == |r| + 1
  {
    if |r| == 0 then [x]
    else if cmp(r[|r| - 1], x) <= 0 then r + [x]
    else
      assert r == r[..|r| - 1] + [r[|r| - 1]];
      Insert(r[..|r| - 1], x, cmp) + [r[|r| - 1]]
  }

  /** The sorted copy of `s` that `s.sort(cmp)` produces. */
  function SortBy<T>(s: seq<T>, cmp: (T, T) -> int): (r: seq<T>)
    ensures multiset(r) == multiset(s)
    ensures |r| == |s|
  {
    if |s| == 0 then []
    else
      assert s == s[..|s| - 1] + [s[|s| - 1]];
      Insert(SortBy(s[..|s| - 1], cmp), s[|s| - 1], cmp)
  }

  lemma {:induction false} InsertSorted<T(!new)>(r: seq<T>, x: T, cmp: (T, T) -> int)
    requires Consistent(cmp)
    requires Sorted(r, cmp)
    ensures Sorted(Insert(r, x, cmp), cmp)
  {
    if |r| > 0 {
      var front := r[..|r| - 1];
      var y := r[|r| - 1];
      assert r == front + [y];
      if cmp(y, x) <= 0 {
        forall z | z in r ensures cmp(z, x) <= 0 {
          var k :| 0 <= k < |r| && r[k] == z;
          if k < |r| - 1 {
            assert cmp(r[k], y) <= 0;
          }
        }
        SortedSnoc(r, x, cmp);
      } else {
        assert Sorted(front, cmp);
        InsertSorted(front, x, cmp);
        var p := Insert(front, x, cmp);
        forall z | z in p ensures cmp(z, y) <= 0 {
          InsertElements(front, x, cmp, z);
          if z != x {
            var k :| 0 <= k < |front| && front[k] == z;
            assert r[k] == z;
          }
        }
        SortedSnoc(p, y, cmp);
      }
    }
  }

  /** An element of the result of `Insert` is the inserted one or an old one. */
  lemma InsertElements<T>(r: seq<T>, x: T, cmp: (T, T) -> int, z: T)
    requires z in Insert(r, x, cmp)
    ensures z == x || z in r
  {
    assert z in multiset(Insert(r, x, cmp));
    if z != x {
      assert z in multiset(r);
    }
  }

  /** A sorted sequence stays sorted when extended by an element every
      member is not after. */
  lemma SortedSnoc<T>(p: seq<T>, y: T, cmp: (T, T) -> int)
    requires Sorted(p, cmp)
    requires forall z | z in p :: cmp(z, y) <= 0
    ensures Sorted(p + [y], cmp)
  {
    var q := p + [y];
    forall i, j | 0 <= i < j < |q| ensures cmp(q[i], q[j]) <= 0 {
      if j == |p| {
        assert q[i] == p[i];
      } else {
        assert q[i] == p[i] && q[j] == p[j];
      }
    }
  }

  /** `SortBy` returns a sorted permutation of its input whenever the comparator is consistent. */
  lemma {:induction false} SortBySorted<T(!new)>(s: seq<T>, cmp: (T, T) -> int)
    requires Consistent(cmp)
    ensures Sorted(SortBy(s, cmp), cmp)
    ensures multiset(SortBy(s, cmp)) == multiset(s)
  {
    if |s| > 0 {
      SortBySorted(s[..|s| - 1], cmp);
      InsertSorted(SortBy(s[..|s| - 1], cmp), s[|s| - 1], cmp);
    }
  }

  /** Compares by an integer rank first and falls back to `cmp` on equal
      ranks, as a comparator returning `rankA - rankB` when they differ does. */
  function ThenBy<T>(rank: T -> int, cmp: (T, T) -> int, a: T, b: T): int {
    if rank(a) != rank(b) then rank(a) - rank(b) else cmp(a, b)
  }

  /** Ranking first keeps a comparator consistent, and different ranks alone decide the sign. */
  lemma ThenByConsistent<T(!new)>(rank: T -> int, cmp: (T, T) -> int)
    requires Consistent(cmp)
    ensures Consistent((a, b) => ThenBy(rank, cmp, a, b))
    ensures forall a, b | rank(a) < rank(b) :: ThenBy(rank, cmp, a, b) < 0 && ThenBy(rank, cmp, b, a) > 0
  {
    var lex := (a, b) => ThenBy(rank, cmp, a, b);
    forall a, b, c | lex(a, b) <= 0 && lex(b, c) <= 0 ensures lex(a, c) <= 0 {
      if rank(a) == rank(b) == rank(c) {
        assert cmp(a, b) <= 0 && cmp(b, c) <= 0;
      }
    }
  }

  /** A run sorted by rank-then-`cmp` has ascending ranks, and equal ranks ordered by `cmp`. */
  lemma ThenBySorted<T>(s: seq<T>, order: (T, T) -> int, rank: T -> int, cmp: (T, T) -> int)
    requires forall a, b :: order(a, b) == ThenBy(rank, cmp, a, b)
    requires Sorted(s, order)
    ensures forall i, j | 0 <= i < j < |s| :: rank(s[i]) <= rank(s[j])
    ensures forall i, j | 0 <= i < j < |s| && rank(s[i]) == rank(s[j]) :: cmp(s[i], s[j]) <= 0
  {
    forall i, j | 0 <= i < j < |s| ensures rank(s[i]) <= rank(s[j]) {
      assert order(s[i], s[j]) <= 0;
    }
    forall i, j | 0 <= i < j < |s| && rank(s[i]) == rank(s[j]) ensures cmp(s[i], s[j]) <= 0 {
      assert order(s[i], s[j]) <= 0;
    }
  }

  /** Comparing records by one of their fields inherits consistency from the field's comparator. */
  lemma OnFieldConsistent<T(!new), F(!new)>(field: T -> F, cmp: (F, F) -> int)
    requires Consistent(cmp)
    ensures Consistent((a, b) => cmp(field(a), field(b)))
  {
    var on := (a, b) => cmp(field(a), field(b));
    forall a, b, c | on(a, b) <= 0 && on(b, c) <= 0 ensures on(a, c) <= 0 {
      assert cmp(field(a), field(b)) <= 0 && cmp(field(b), field(c)) <= 0;
    }
  }
}
