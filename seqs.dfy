/** Sequence vocabulary shared by the backend and the client: occurrence counts,
    order-preserving de-duplication (what `stream().distinct()` and an insertion-ordered
    JavaScript `Set`/`Map` produce) and filtering out one value. */
module Seqs {

  ghost predicate NoDuplicates<T>(s: seq<T>) {
    forall i, j :: 0 <= i < j < |s| ==> s[i] != s[j]
  }

  function Count<T(==)>(s: seq<T>, x: T): (n: nat)
    ensures n <= |s|
    ensures n > 0 <==> x in s
  {
    if s == [] then 0 else (if s[|s| - 1] == x then 1 else 0) + Count(s[..|s| - 1], x)
  }

  lemma {:induction false} CountAppend<T>(a: seq<T>, b: seq<T>, x: T)
    ensures Count(a + b, x) == Count(a, x) + Count(b, x)
    decreases |b|
  {
    if b == [] {
      assert a + b == a;
    } else {
      assert (a + b)[..|a + b| - 1] == a + b[..|b| - 1];
      CountAppend(a, b[..|b| - 1], x);
    }
  }

  /** `n` copies of `x`. */
  function Repeat<T>(x: T, n: nat): (r: seq<T>)
    ensures |r| == n && forall i :: 0 <= i < n ==> r[i] == x
  {
    if n == 0 then [] else Repeat(x, n - 1) + [x]
  }

  lemma {:induction false} CountRepeat<T>(x: T, n: nat, y: T)
    ensures Count(Repeat(x, n), y) == if y == x then n else 0
  {
    if n > 0 {
      assert Repeat(x, n)[..n - 1] == Repeat(x, n - 1);
      CountRepeat(x, n - 1, y);
    }
  }

  /** The first index at which `x` occurs in `s`. */
  function FirstIndex<T(==)>(s: seq<T>, x: T): (k: nat)
    requires x in s
    ensures k < |s| && s[k] == x && x !in s[..k]
  {
    if s[0] == x then 0 else 1 + FirstIndex(s[1..], x)
  }

  /** The distinct elements of `s`, each at the place where it first occurs. */
  function Dedup<T(==,!new)>(s: seq<T>): (r: seq<T>)
    ensures NoDuplicates(r)
    ensures forall x :: x in r <==> x in s
    ensures |r| <= |s|
  {
    if s == [] then []
    else
      var p := Dedup(s[..|s| - 1]);
      if s[|s| - 1] in p then p else p + [s[|s| - 1]]
  }

  lemma {:induction false} FirstIndexInPrefix<T>(s: seq<T>, n: nat, x: T)
    requires n <= |s| && x in s[..n]
    ensures FirstIndex(s, x) == FirstIndex(s[..n], x)
  {
    if s[0] != x {
      assert s[..n][1..] == s[1..][..n - 1];
      FirstIndexInPrefix(s[1..], n - 1, x);
    }
  }

  lemma {:induction false} FirstIndexOfNew<T>(s: seq<T>, n: nat)
    requires n < |s| && s[n] !in s[..n]
    ensures FirstIndex(s, s[n]) == n
  {
    if n > 0 {
      assert s[..n][0] == s[0];
      assert s[1..][..n - 1] == s[1..n];
      assert s[1..][n - 1] == s[n];
      FirstIndexOfNew(s[1..], n - 1);
    }
  }

  /** Entries of `Dedup(s)` appear in the order of their first occurrence in `s`. */
  lemma {:induction false} DedupFirstOccurrenceOrder<T(!new)>(s: seq<T>, i: nat, j: nat)
    requires i < j < |Dedup(s)|
    ensures FirstIndex(s, Dedup(s)[i]) < FirstIndex(s, Dedup(s)[j])
    decreases |s|
  {
    var n := |s| - 1;
    var init := s[..n];
    var p := Dedup(init);
    assert s[..n] == init;
    if s[n] in p {
      DedupFirstOccurrenceOrder(init, i, j);
      FirstIndexInPrefix(s, n, p[i]);
      FirstIndexInPrefix(s, n, p[j]);
    } else if j < |p| {
      DedupFirstOccurrenceOrder(init, i, j);
      FirstIndexInPrefix(s, n, p[i]);
      FirstIndexInPrefix(s, n, p[j]);
    } else {
      assert Dedup(s)[j] == s[n] && s[n] !in init;
      FirstIndexInPrefix(s, n, p[i]);
      FirstIndexOfNew(s, n);
    }
  }

  /** Every element of `s` except the occurrences of `x`, in their original order. */
  function RemoveAll<T(==,!new)>(s: seq<T>, x: T): (r: seq<T>)
    ensures x !in r
    ensures forall y :: y != x ==> Count(r, y) == Count(s, y)
  {
    if s == [] then []
    else
      var p := RemoveAll(s[..|s| - 1], x);
      if s[|s| - 1] == x then p else p + [s[|s| - 1]]
  }

  lemma {:induction false} RemoveAllAppend<T(!new)>(a: seq<T>, b: seq<T>, x: T)
    ensures RemoveAll(a + b, x) == RemoveAll(a, x) + RemoveAll(b, x)
    decreases |b|
  {
    if b == [] {
      assert a + b == a;
    } else {
      assert (a + b)[..|a + b| - 1] == a + b[..|b| - 1];
      RemoveAllAppend(a, b[..|b| - 1], x);
    }
  }

  lemma {:induction false} RemoveAllAbsent<T(!new)>(s: seq<T>, x: T)
    requires x !in s
    ensures RemoveAll(s, x) == s
  {
    if s != [] {
      assert x !in s[..|s| - 1];
      RemoveAllAbsent(s[..|s| - 1], x);
    }
  }

  lemma SplitAt<T>(s: seq<T>, k: nat)
    requires k < |s|
    ensures s == s[..k] + [s[k]] + s[k + 1..]
  {
    assert s[k..] == [s[k]] + s[k + 1..];
    assert s == s[..k] + s[k..];
  }

  /** Removing a value that occurs once, between `pre` and `post`, cuts out just that value. */
  lemma RemoveAllCut<T(!new)>(pre: seq<T>, x: T, post: seq<T>)
    requires x !in pre && x !in post
    ensures RemoveAll(pre + [x] + post, x) == pre + post
  {
    RemoveAllAppend(pre + [x], post, x);
    assert (pre + [x])[..|pre|] == pre;
    RemoveAllAbsent(pre, x);
    RemoveAllAbsent(post, x);
  }

  /** Removing a value from a duplicate-free list cuts it out and leaves the rest in
      place: the elements before it and after it keep their relative order. */
  lemma RemoveOneOccurrence<T(!new)>(s: seq<T>, k: nat)
    requires NoDuplicates(s) && k < |s|
    ensures RemoveAll(s, s[k]) == s[..k] + s[k + 1..]
  {
    var pre, post := s[..k], s[k + 1..];
    assert s[k] !in pre by {
      forall i | 0 <= i < |pre| ensures pre[i] != s[k] {
        assert pre[i] == s[i];
      }
    }
    assert s[k] !in post by {
      forall i | 0 <= i < |post| ensures post[i] != s[k] {
        assert post[i] == s[k + 1 + i];
      }
    }
    SplitAt(s, k);
    RemoveAllCut(pre, s[k], post);
  }

  lemma {:induction false} NoDuplicatesRemoveAll<T(!new)>(s: seq<T>, x: T)
    requires NoDuplicates(s)
    ensures NoDuplicates(RemoveAll(s, x))
  {
    if s != [] {
      var init, last := s[..|s| - 1], s[|s| - 1];
      NoDuplicatesRemoveAll(init, x);
      forall i | 0 <= i < |init| ensures init[i] != last {
        assert init[i] == s[i];
      }
      if last != x {
        assert Count(RemoveAll(init, x), last) == Count(init, last) == 0;
      }
    }
  }

  lemma {:induction false} NoDuplicatesCount<T>(s: seq<T>, x: T)
    requires NoDuplicates(s)
    ensures Count(s, x) <= 1
  {
    if s != [] {
      var init, last := s[..|s| - 1], s[|s| - 1];
      NoDuplicatesCount(init, x);
      forall i | 0 <= i < |init| ensures init[i] != last {
        assert init[i] == s[i];
      }
    }
  }

  /** The occurrence counts in `s` of the entries of `keys`, added up. */
  function SumOfCounts<T(==)>(keys: seq<T>, s: seq<T>): nat {
    if keys == [] then 0 else SumOfCounts(keys[..|keys| - 1], s) + Count(s, keys[|keys| - 1])
  }

  lemma {:induction false} SumOfCountsSnoc<T>(keys: seq<T>, s: seq<T>, x: T)
    ensures SumOfCounts(keys, s + [x]) == SumOfCounts(keys, s) + Count(keys, x)
  {
    if keys != [] {
      assert (s + [x])[..|s|] == s;
      SumOfCountsSnoc(keys[..|keys| - 1], s, x);
    }
  }

  /** Counting every distinct value of `s` once accounts for every position of `s`. */
  lemma {:induction false} SumOfCountsOverDedup<T(!new)>(s: seq<T>)
    ensures SumOfCounts(Dedup(s), s) == |s|
  {
    if s != [] {
      var init, x := s[..|s| - 1], s[|s| - 1];
      var d := Dedup(init);
      assert s == init + [x];
      SumOfCountsOverDedup(init);
      SumOfCountsSnoc(d, init, x);
      NoDuplicatesCount(d, x);
      if x !in d {
        assert Dedup(s) == d + [x];
        assert Count(s, x) == Count(init, x) + 1;
      }
    }
  }

  /** Appending a block of a new value to a list adds that value once to its distinct values. */
  lemma {:induction false} DedupAppendRepeat<T(!new)>(a: seq<T>, x: T, n: nat)
    requires x !in a && n > 0
    ensures Dedup(a + Repeat(x, n)) == Dedup(a) + [x]
  {
    var b := a + Repeat(x, n - 1);
    assert a + Repeat(x, n) == b + [x];
    assert (b + [x])[..|b|] == b;
    if n == 1 {
      assert b == a;
    } else {
      DedupAppendRepeat(a, x, n - 1);
    }
  }

}
