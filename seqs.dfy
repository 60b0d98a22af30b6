/**
 * `Vec::remove` and `Vec::insert` on sequences, with the facts the list
 * operations need: what lands where, what multiset is kept, and that each
 * undoes the other.
 */
module Seqs {

  /** `v.remove(i)`: the element at `i` is taken out and the tail shifts left. */
  function RemoveAt<T>(s: seq<T>, i: nat): (r: seq<T>)
    requires i < |s|
    ensures |r| == |s| - 1
    ensures forall k | 0 <= k < i :: r[k] == s[k]
    ensures forall k | i <= k < |r| :: r[k] == s[k + 1]
  {
    s[..i] + s[i + 1..]
  }

  /** `v.insert(i, x)`: `x` lands at `i` and the tail shifts right. */
  function InsertAt<T>(s: seq<T>, x: T, i: nat): (r: seq<T>)
    requires i <= |s|
    ensures |r| == |s| + 1
    ensures r[i] == x
    ensures forall k | 0 <= k < i :: r[k] == s[k]
    ensures forall k | i < k < |r| :: r[k] == s[k - 1]
  {
    s[..i] + [x] + s[i..]
  }

  /** `remove` takes exactly one occurrence of the removed element out of the multiset. */
  lemma {:induction false} RemoveAtMultiset<T>(s: seq<T>, i: nat)
    requires i < |s|
    ensures multiset(RemoveAt(s, i)) + multiset{s[i]} == multiset(s)
  {
    assert s == s[..i] + [s[i]] + s[i + 1..];
  }

  /** `insert` adds exactly one occurrence of the inserted element to the multiset. */
  lemma {:induction false} InsertAtMultiset<T>(s: seq<T>, x: T, i: nat)
    requires i <= |s|
    ensures multiset(InsertAt(s, x, i)) == multiset(s) + multiset{x}
  {
    assert s == s[..i] + s[i..];
  }

  lemma {:induction false} InsertRemoved<T>(s: seq<T>, i: nat)
    requires i < |s|
    ensures InsertAt(RemoveAt(s, i), s[i], i) == s
  {
  }

  lemma {:induction false} RemoveInserted<T>(s: seq<T>, x: T, i: nat)
    requires i <= |s|
    ensures RemoveAt(InsertAt(s, x, i), i) == s
  {
  }

  /** Cancelling a common part of two multiset sums. */
  lemma {:induction false} Cancel<T>(x: multiset<T>, y: multiset<T>, z: multiset<T>)
    requires x + z == y + z
    ensures x == y
  {
    assert forall e :: x[e] == y[e] by {
      forall e ensures x[e] == y[e] {
        assert (x + z)[e] == (y + z)[e];
      }
    }
  }

  /**
   * The bookkeeping of replacing one part `c` of a whole by `d`: if the whole
   * `b` with `d` equals the new whole `a` with `c`, then the new whole differs
   * from the old one by what `d` adds to `c`.
   */
  lemma {:induction false} Replace<T>(a: multiset<T>, b: multiset<T>, c: multiset<T>, d: multiset<T>, added: multiset<T>)
    requires a + c == b + d
    requires d == c + added
    ensures a == b + added
  {
    assert a + c == (b + added) + c;
    Cancel(a, b + added, c);
  }

  /** The elements of `s` other than `x`, in order. */
  function Without<T(==)>(s: seq<T>, x: T): (r: seq<T>)
    ensures x !in r
    ensures forall k | 0 <= k < |r| :: r[k] in s
    ensures forall k | 0 <= k < |s| && s[k] != x :: s[k] in r
    ensures |r| <= |s|
  {
    if s == [] then []
    else if s[0] == x then Without(s[1..], x)
    else [s[0]] + Without(s[1..], x)
  }

  /** No element occurs twice. */
  ghost predicate NoDuplicates<T>(s: seq<T>)
  {
    forall x | x in s :: multiset(s)[x] == 1
  }

  /** Two positions of a sequence without duplicates hold different elements. */
  lemma {:induction false} NoDuplicatesDistinct<T>(s: seq<T>, p: nat, q: nat)
    requires NoDuplicates(s) && p < q < |s|
    ensures s[p] != s[q]
  {
    var x := s[q];
    assert s == s[..q] + s[q..];
    assert x in s[q..] && s[p] in s[..q];
    assert multiset(s) == multiset(s[..q]) + multiset(s[q..]);
    assert multiset(s)[x] == 1 && multiset(s[q..])[x] >= 1;
    assert multiset(s[..q])[x] == 0;
  }
}
