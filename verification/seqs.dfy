/** Sequence operations that mirror JavaScript's array methods
    (`findIndex`, `find`, `filter`, `flat`) and the "keep the first entry per
    key" de-duplication that several parts of the system perform. */
module Seqs {
  import opened Wrappers

  /** `Array.prototype.findIndex`: the first index whose element satisfies `p`, or -1. */
  function FindIndex<T>(s: seq<T>, p: T -> bool): (r: int)
    ensures -1 <= r < |s|
    ensures r == -1 <==> forall i | 0 <= i < |s| :: !p(s[i])
    ensures r >= 0 ==> p(s[r]) && forall i | 0 <= i < r :: !p(s[i])
  {
    if |s| == 0 then -1
    else if p(s[0]) then 0
    else
      var k := FindIndex(s[1..], p);
      assert forall i | 1 <= i < |s| :: s[i] == s[1..][i - 1];
      if k == -1 then -1 else k + 1
  }

  /** `Array.prototype.find`: the first element satisfying `p`, if any. */
  function Find<T>(s: seq<T>, p: T -> bool): (r: Option<T>)
    ensures r.None? <==> forall i | 0 <= i < |s| :: !p(s[i])
    ensures r.Some? ==> exists i | 0 <= i < |s| :: s[i] == r.value && p(s[i]) && forall j | 0 <= j < i :: !p(s[j])
  {
    var k := FindIndex(s, p);
    if k == -1 then None else Some(s[k])
  }

  /** Whether some element satisfies `p` (`Array.prototype.some`). */
  predicate Any<T>(s: seq<T>, p: T -> bool) {
    exists i | 0 <= i < |s| :: p(s[i])
  }

  /** `Array.prototype.filter`: the elements satisfying `p`, in their original order. */
  function Filter<T>(s: seq<T>, p: T -> bool): (r: seq<T>)
    ensures |r| <= |s|
    ensures forall i | 0 <= i < |r| :: p(r[i])
    ensures multiset(r) <= multiset(s)
  {
    if |s| == 0 then []
    else
      assert s == [s[0]] + s[1..];
      if p(s[0]) then [s[0]] + Filter(s[1..], p)
      else Filter(s[1..], p)
  }

  /** An element is kept by `Filter` exactly when it occurs in the input and satisfies the predicate. */
  lemma {:induction false} FilterMembership<T>(s: seq<T>, p: T -> bool, x: T)
    ensures x in Filter(s, p) <==> x in s && p(x)
  {
    if |s| > 0 {
      FilterMembership(s[1..], p, x);
      assert s == [s[0]] + s[1..];
    }
  }

  /** `Filter` shortens its input exactly when some element fails the predicate. */
  lemma {:induction false} FilterKeepsLength<T>(s: seq<T>, p: T -> bool)
    ensures |Filter(s, p)| == |s| <==> forall i | 0 <= i < |s| :: p(s[i])
  {
    if |s| > 0 {
      FilterKeepsLength(s[1..], p);
      assert forall i | 1 <= i < |s| :: s[i] == s[1..][i - 1];
    }
  }

  /** `Filter` over a concatenation is the concatenation of the filtered parts. */
  lemma {:induction false} FilterAppend<T>(a: seq<T>, b: seq<T>, p: T -> bool)
    ensures Filter(a + b, p) == Filter(a, p) + Filter(b, p)
  {
    if |a| > 0 {
      assert (a + b)[1..] == a[1..] + b;
      FilterAppend(a[1..], b, p);
    } else {
      assert a + b == b;
    }
  }

  /** `Array.prototype.map`. */
  function Map<A, B>(s: seq<A>, f: A --> B): (r: seq<B>)
    requires forall i | 0 <= i < |s| :: f.requires(s[i])
    ensures |r| == |s|
    ensures forall i | 0 <= i < |s| :: r[i] == f(s[i])
  {
    if |s| == 0 then [] else [f(s[0])] + Map(s[1..], f)
  }

  /** `Array.prototype.flat` on an array of arrays. */
  function Flatten<T>(ss: seq<seq<T>>): (r: seq<T>)
    ensures |ss| > 0 ==> r == ss[0] + Flatten(ss[1..])
  {
    if |ss| == 0 then [] else ss[0] + Flatten(ss[1..])
  }

  /** The keys of the elements of `s`. */
  function Keys<T, K>(s: seq<T>, key: T -> K): set<K> {
    set i | 0 <= i < |s| :: key(s[i])
  }

  /** A property every element of a sequence has, every permutation of it has. */
  lemma AllOfPermutation<T>(a: seq<T>, b: seq<T>, p: T -> bool)
    requires multiset(a) == multiset(b)
    requires forall i | 0 <= i < |a| :: p(a[i])
    ensures forall i | 0 <= i < |b| :: p(b[i])
  {
    forall i | 0 <= i < |b| ensures p(b[i]) {
      assert b[i] in multiset(a);
      var j :| 0 <= j < |a| && a[j] == b[i];
    }
  }

  /** Mapping and then keying is keying by the composition. */
  lemma KeysOfMap<A, B, K>(s: seq<A>, f: A -> B, key: B -> K, both: A -> K)
    requires forall a :: key(f(a)) == both(a)
    ensures Keys(Map(s, f), key) == Keys(s, both)
  {
    var m := Map(s, f);
    forall k | k in Keys(m, key) ensures k in Keys(s, both) {
      var i :| 0 <= i < |m| && key(m[i]) == k;
      assert both(s[i]) == k;
    }
    forall k | k in Keys(s, both) ensures k in Keys(m, key) {
      var i :| 0 <= i < |s| && both(s[i]) == k;
      assert key(m[i]) == k;
    }
  }

  lemma KeysAppend<T, K>(s: seq<T>, x: T, key: T -> K)
    ensures Keys(s + [x], key) == Keys(s, key) + {key(x)}
  {
    var t := s + [x];
    assert forall i | 0 <= i < |s| :: t[i] == s[i];
    assert t[|s|] == x;
  }

  /** No two elements of `s` share a key. */
  predicate DistinctKeys<T, K(==)>(s: seq<T>, key: T -> K) {
    forall i, j | 0 <= i < j < |s| :: key(s[i]) != key(s[j])
  }

  /** The first element of `s` whose key is `k`. */
  function FirstWithKey<T, K(==)>(s: seq<T>, key: T -> K, k: K): Option<T> {
    Find(s, x => key(x) == k)
  }

  /** Scans `s` in order and keeps an element only when no element kept
      before it has the same key, as a `Set`/`Map` of seen keys does. */
  function KeepFirst<T, K(==)>(s: seq<T>, key: T -> K): (r: seq<T>)
    ensures |r| <= |s|
    ensures DistinctKeys(r, key)
    ensures Keys(r, key) == Keys(s, key)
    ensures forall i | 0 <= i < |r| :: r[i] in s
  {
    if |s| == 0 then []
    else
      var front := s[..|s| - 1];
      var x := s[|s| - 1];
      var r := KeepFirst(front, key);
      KeysAppend(front, x, key);
      assert s == front + [x];
      if key(x) in Keys(r, key) then r
      else
        KeysAppend(r, x, key);
        r + [x]
  }

  /** `Find` over `s + [x]` looks at `x` only when nothing in `s` matched. */
  lemma {:induction false} FindAppend<T>(s: seq<T>, x: T, p: T -> bool)
    ensures Find(s + [x], p) == if Find(s, p).Some? then Find(s, p) else if p(x) then Some(x) else None
  {
    if |s| > 0 {
      assert (s + [x])[1..] == s[1..] + [x];
      FindAppend(s[1..], x, p);
      if !p(s[0]) {
        assert Find(s + [x], p) == Find(s[1..] + [x], p) by {
          FindIndexShift(s + [x], p);
        }
        assert Find(s, p) == Find(s[1..], p) by {
          FindIndexShift(s, p);
        }
      }
    }
  }

  lemma FindIndexShift<T>(s: seq<T>, p: T -> bool)
    requires |s| > 0 && !p(s[0])
    ensures Find(s, p) == Find(s[1..], p)
  {
  }

  /** Every element `KeepFirst` keeps is the first element of the input with its key. */
  lemma {:induction false} KeepFirstKeepsFirst<T, K>(s: seq<T>, key: T -> K)
    ensures forall i | 0 <= i < |KeepFirst(s, key)| :: FirstWithKey(s, key, key(KeepFirst(s, key)[i])) == Some(KeepFirst(s, key)[i])
  {
    if |s| > 0 {
      var front := s[..|s| - 1];
      var x := s[|s| - 1];
      assert s == front + [x];
      KeepFirstKeepsFirst(front, key);
      var r := KeepFirst(front, key);
      forall i | 0 <= i < |KeepFirst(s, key)|
        ensures FirstWithKey(s, key, key(KeepFirst(s, key)[i])) == Some(KeepFirst(s, key)[i])
      {
        var y := KeepFirst(s, key)[i];
        FindAppend(front, x, z => key(z) == key(y));
        if i < |r| {
          assert y == r[i];
        } else {
          assert y == x && key(x) !in Keys(r, key);
          assert key(x) !in Keys(front, key);
          assert forall j | 0 <= j < |front| :: key(front[j]) != key(x);
        }
      }
    }
  }

  /** Appending keeps keys distinct exactly when the new key is fresh. */
  lemma DistinctKeysAppend<T, K>(s: seq<T>, x: T, key: T -> K)
    ensures DistinctKeys(s + [x], key) <==> DistinctKeys(s, key) && key(x) !in Keys(s, key)
  {
    var t := s + [x];
    assert forall i | 0 <= i < |s| :: t[i] == s[i];
    if key(x) in Keys(s, key) {
      var k :| 0 <= k < |s| && key(s[k]) == key(x);
      assert key(t[k]) == key(t[|s|]);
    }
  }

  /** A sequence has distinct keys exactly when it has as many keys as elements. */
  lemma {:induction false} DistinctKeysByCount<T, K>(s: seq<T>, key: T -> K)
    ensures |Keys(s, key)| <= |s|
    ensures DistinctKeys(s, key) <==> |Keys(s, key)| == |s|
  {
    if |s| > 0 {
      var front := s[..|s| - 1];
      var x := s[|s| - 1];
      assert s == front + [x];
      DistinctKeysByCount(front, key);
      KeysAppend(front, x, key);
      DistinctKeysAppend(front, x, key);
    }
  }

  /** Rearranging a sequence does not change its set of keys. */
  lemma KeysOfPermutation<T, K>(a: seq<T>, b: seq<T>, key: T -> K)
    requires multiset(a) == multiset(b)
    ensures Keys(a, key) == Keys(b, key)
  {
    forall k | k in Keys(a, key) ensures k in Keys(b, key) {
      var i :| 0 <= i < |a| && key(a[i]) == k;
      assert a[i] in multiset(b);
      var j :| 0 <= j < |b| && b[j] == a[i];
    }
    forall k | k in Keys(b, key) ensures k in Keys(a, key) {
      var j :| 0 <= j < |b| && key(b[j]) == k;
      assert b[j] in multiset(a);
      var i :| 0 <= i < |a| && a[i] == b[j];
    }
  }

  /** Rearranging a sequence keeps its keys distinct. */
  lemma DistinctKeysOfPermutation<T, K>(a: seq<T>, b: seq<T>, key: T -> K)
    requires multiset(a) == multiset(b)
    requires DistinctKeys(a, key)
    ensures DistinctKeys(b, key)
  {
    DistinctKeysByCount(a, key);
    DistinctKeysByCount(b, key);
    KeysOfPermutation(a, b, key);
    assert |a| == |multiset(a)| == |multiset(b)| == |b|;
  }

  /** Removing one element (`splice(k, 1)`) removes exactly its key when keys are distinct. */
  lemma RemoveAt<T, K>(s: seq<T>, k: nat, key: T -> K)
    requires k < |s| && DistinctKeys(s, key)
    ensures DistinctKeys(s[..k] + s[k + 1..], key)
    ensures Keys(s[..k] + s[k + 1..], key) == Keys(s, key) - {key(s[k])}
  {
    var t := s[..k] + s[k + 1..];
    assert forall i | 0 <= i < |t| :: t[i] == if i < k then s[i] else s[i + 1];
    forall x | x in Keys(s, key) - {key(s[k])} ensures x in Keys(t, key) {
      var i :| 0 <= i < |s| && key(s[i]) == x;
      if i < k {
        assert key(t[i]) == x;
      } else {
        assert key(t[i - 1]) == x;
      }
    }
  }

  /** Filtering keeps keys distinct. */
  lemma {:induction false} FilterDistinct<T, K>(s: seq<T>, p: T -> bool, key: T -> K)
    requires DistinctKeys(s, key)
    ensures DistinctKeys(Filter(s, p), key)
  {
    if |s| > 0 {
      FilterDistinct(s[1..], p, key);
      if p(s[0]) {
        var rest := Filter(s[1..], p);
        forall i | 0 <= i < |rest| ensures key(rest[i]) != key(s[0]) {
          FilterMembership(s[1..], p, rest[i]);
          var j :| 0 <= j < |s[1..]| && s[1..][j] == rest[i];
          assert s[j + 1] == rest[i];
        }
      }
    }
  }

  /** The keys of a concatenation are the keys of its parts. */
  lemma KeysConcat<T, K>(a: seq<T>, b: seq<T>, key: T -> K)
    ensures Keys(a + b, key) == Keys(a, key) + Keys(b, key)
  {
    var t := a + b;
    assert forall i | 0 <= i < |a| :: t[i] == a[i];
    assert forall i | 0 <= i < |b| :: t[|a| + i] == b[i];
    forall k | k in Keys(t, key) ensures k in Keys(a, key) + Keys(b, key) {
      var i :| 0 <= i < |t| && key(t[i]) == k;
      if i >= |a| {
        assert key(b[i - |a|]) == k;
      }
    }
  }

  /** The ranks strictly increase along the sequence. */
  predicate Increasing<T>(s: seq<T>, rank: T -> int) {
    forall i, j | 0 <= i < j < |s| :: rank(s[i]) < rank(s[j])
  }

  /** Two sequences with distinct keys and no key in common concatenate to
      one with distinct keys. */
  lemma DistinctKeysConcat<T, K>(a: seq<T>, b: seq<T>, key: T -> K)
    requires DistinctKeys(a, key) && DistinctKeys(b, key)
    requires Keys(a, key) !! Keys(b, key)
    ensures DistinctKeys(a + b, key)
  {
    var t := a + b;
    forall i, j | 0 <= i < j < |t| ensures key(t[i]) != key(t[j]) {
      if j >= |a| {
        assert t[j] == b[j - |a|];
        assert key(b[j - |a|]) in Keys(b, key);
        if i >= |a| {
          assert t[i] == b[i - |a|];
        } else {
          assert key(a[i]) in Keys(a, key);
        }
      }
    }
  }

  /** Filtering keeps a strictly increasing ranking strictly increasing. */
  lemma {:induction false} FilterKeepsOrder<T>(s: seq<T>, p: T -> bool, rank: T -> int)
    requires Increasing(s, rank)
    ensures Increasing(Filter(s, p), rank)
  {
    if |s| > 0 {
      var tail := s[1..];
      assert Increasing(tail, rank) by {
        forall i, j | 0 <= i < j < |tail| ensures rank(tail[i]) < rank(tail[j]) {
          assert tail[i] == s[i + 1] && tail[j] == s[j + 1];
        }
      }
      FilterKeepsOrder(tail, p, rank);
      var rest := Filter(tail, p);
      if p(s[0]) {
        HeadRanksFirst(s, p, rank);
        var f := [s[0]] + rest;
        assert Filter(s, p) == f;
        forall i, j | 0 <= i < j < |f| ensures rank(f[i]) < rank(f[j]) {
          assert f[j] == rest[j - 1];
          if i > 0 {
            assert f[i] == rest[i - 1];
          }
        }
      } else {
        assert Filter(s, p) == rest;
      }
    }
  }

  /** With a strictly increasing ranking, the head ranks below everything the
      tail's filter keeps. */
  lemma HeadRanksFirst<T>(s: seq<T>, p: T -> bool, rank: T -> int)
    requires |s| > 0 && Increasing(s, rank)
    ensures forall x | x in Filter(s[1..], p) :: rank(s[0]) < rank(x)
  {
    forall x | x in Filter(s[1..], p) ensures rank(s[0]) < rank(x) {
      FilterMembership(s[1..], p, x);
      var j :| 0 <= j < |s[1..]| && s[1..][j] == x;
      assert s[j + 1] == x;
    }
  }
}
