/** Sequence vocabulary shared by the catalog model: optional values, duplicate-free
    sequences, the stable `filter` of JavaScript arrays, first-seen de-duplication
    (what a JavaScript `Set` keeps, in insertion order) and `find`. */
module Seqs {

  datatype Option<+T> = None | Some(value: T) {
    /** The value, or `default` when there is none (JavaScript's `??`). */
    function GetOr(default: T): T {
      match this
      case Some(v) => v
      case None => default
    }
  }

  /** No element occurs twice. */
  predicate NoDup<T(==)>(s: seq<T>) {
    forall i, j :: 0 <= i < j < |s| ==> s[i] != s[j]
  }

  lemma NoDupSnoc<T>(s: seq<T>, x: T)
    requires NoDup(s) && x !in s
    ensures NoDup(s + [x])
  {
    forall i, j | 0 <= i < j < |s + [x]|
      ensures (s + [x])[i] != (s + [x])[j]
    {
      if j == |s| {
        assert (s + [x])[i] == s[i];
      }
    }
  }

  lemma NoDupCons<T>(x: T, s: seq<T>)
    requires NoDup(s) && x !in s
    ensures NoDup([x] + s)
  {
    forall i, j | 0 <= i < j < |[x] + s|
      ensures ([x] + s)[i] != ([x] + s)[j]
    {
      if i == 0 {
        assert ([x] + s)[j] == s[j - 1];
      } else {
        assert ([x] + s)[i] == s[i - 1] && ([x] + s)[j] == s[j - 1];
      }
    }
  }

  /** The elements of `s` that `keep` accepts, in their original order
      (JavaScript's `Array.prototype.filter`). */
  function Filter<T>(s: seq<T>, keep: T -> bool): seq<T>
  {
    if s == [] then []
    else (if keep(s[0]) then [s[0]] else []) + Filter(s[1..], keep)
  }

  /** `xs` is `ys` with some elements left out and the rest in order. */
  predicate IsSubsequence<T(==)>(xs: seq<T>, ys: seq<T>)
    decreases |ys|
  {
    if xs == [] then true
    else if ys == [] then false
    else if xs[0] == ys[0] then IsSubsequence(xs[1..], ys[1..])
    else IsSubsequence(xs, ys[1..])
  }

  lemma {:induction false} SubsequenceLength<T>(xs: seq<T>, ys: seq<T>)
    requires IsSubsequence(xs, ys)
    ensures |xs| <= |ys|
    decreases |ys|
  {
    if xs != [] {
      if xs[0] == ys[0] {
        SubsequenceLength(xs[1..], ys[1..]);
      } else {
        SubsequenceLength(xs, ys[1..]);
      }
    }
  }

  lemma {:induction false} FilterIsSubsequence<T>(s: seq<T>, keep: T -> bool)
    ensures IsSubsequence(Filter(s, keep), s)
    ensures |Filter(s, keep)| <= |s|
  {
    if s != [] {
      FilterIsSubsequence(s[1..], keep);
      var r := Filter(s, keep);
      if keep(s[0]) {
        assert r[0] == s[0] && r[1..] == Filter(s[1..], keep);
      } else {
        assert r == Filter(s[1..], keep);
        if r != [] && r[0] == s[0] {
          // the head can only be kept once; the rest is still a subsequence of s[1..]
          SubsequenceDropHead(r, s[1..]);
        }
      }
    }
  }

  /** Dropping the first element of a subsequence keeps it a subsequence. */
  lemma {:induction false} SubsequenceDropHead<T>(xs: seq<T>, ys: seq<T>)
    requires xs != [] && IsSubsequence(xs, ys)
    ensures IsSubsequence(xs[1..], ys)
    decreases |ys|, 0
  {
    assert ys == [ys[0]] + ys[1..];
    if xs[0] != ys[0] {
      SubsequenceDropHead(xs, ys[1..]);
    }
    SubsequenceWeaken(xs[1..], ys[1..], ys[0]);
  }

  /** Putting an extra element in front of the longer sequence keeps a subsequence. */
  lemma {:induction false} SubsequenceWeaken<T>(xs: seq<T>, ys: seq<T>, y: T)
    requires IsSubsequence(xs, ys)
    ensures IsSubsequence(xs, [y] + ys)
    decreases |ys|, 1
  {
    assert ([y] + ys)[1..] == ys;
    if xs != [] && xs[0] == y {
      SubsequenceDropHead(xs, ys);
    }
  }

  /** A subsequence of a subsequence is a subsequence. */
  lemma {:induction false} SubsequenceTransitive<T>(xs: seq<T>, ys: seq<T>, zs: seq<T>)
    requires IsSubsequence(xs, ys) && IsSubsequence(ys, zs)
    ensures IsSubsequence(xs, zs)
    decreases |zs|
  {
    if xs != [] {
      if ys[0] == zs[0] && xs[0] == ys[0] {
        SubsequenceTransitive(xs[1..], ys[1..], zs[1..]);
      } else {
        if ys[0] == zs[0] {
          SubsequenceTransitive(xs, ys[1..], zs[1..]);
        } else {
          SubsequenceTransitive(xs, ys, zs[1..]);
        }
        if xs[0] == zs[0] {
          SubsequenceDropHead(xs, zs[1..]);
        }
      }
    }
  }

  lemma {:induction false} FilterMembers<T>(s: seq<T>, keep: T -> bool, x: T)
    ensures x in Filter(s, keep) <==> x in s && keep(x)
  {
    if s != [] {
      FilterMembers(s[1..], keep, x);
      assert s == [s[0]] + s[1..];
    }
  }

  /** Every accepted occurrence is kept and every rejected one dropped. */
  lemma {:induction false} FilterCount<T>(s: seq<T>, keep: T -> bool, x: T)
    ensures multiset(Filter(s, keep))[x] == if keep(x) then multiset(s)[x] else 0
  {
    if s != [] {
      FilterCount(s[1..], keep, x);
      assert s == [s[0]] + s[1..];
    }
  }

  lemma {:induction false} FilterKeepsAll<T>(s: seq<T>, keep: T -> bool)
    requires forall i :: 0 <= i < |s| ==> keep(s[i])
    ensures Filter(s, keep) == s
  {
    if s != [] {
      FilterKeepsAll(s[1..], keep);
      assert s == [s[0]] + s[1..];
    }
  }

  lemma {:induction false} FilterAllKept<T>(s: seq<T>, keep: T -> bool)
    ensures forall i :: 0 <= i < |Filter(s, keep)| ==> keep(Filter(s, keep)[i])
  {
    if s != [] {
      FilterAllKept(s[1..], keep);
    }
  }

  lemma FilterIdempotent<T>(s: seq<T>, keep: T -> bool)
    ensures Filter(Filter(s, keep), keep) == Filter(s, keep)
  {
    FilterAllKept(s, keep);
    FilterKeepsAll(Filter(s, keep), keep);
  }

  /** Two tests that agree on every element of `s` filter it alike. */
  lemma {:induction false} FilterCongruent<T>(s: seq<T>, f: T -> bool, g: T -> bool)
    requires forall i :: 0 <= i < |s| ==> f(s[i]) == g(s[i])
    ensures Filter(s, f) == Filter(s, g)
  {
    if s != [] {
      FilterCongruent(s[1..], f, g);
    }
  }

  lemma {:induction false} FilterAppend<T>(a: seq<T>, b: seq<T>, keep: T -> bool)
    ensures Filter(a + b, keep) == Filter(a, keep) + Filter(b, keep)
  {
    if a != [] {
      assert (a + b)[0] == a[0] && (a + b)[1..] == a[1..] + b;
      FilterAppend(a[1..], b, keep);
    } else {
      assert a + b == b;
    }
  }

  /** `s` with every occurrence of `x` filtered out. */
  function Without<T(==)>(s: seq<T>, x: T): seq<T>
  {
    Filter(s, y => y != x)
  }

  lemma WithoutMembers<T>(s: seq<T>, x: T, y: T)
    ensures y in Without(s, x) <==> y in s && y != x
  {
    FilterMembers(s, y => y != x, y);
  }

  lemma WithoutIsSubsequence<T>(s: seq<T>, x: T)
    ensures IsSubsequence(Without(s, x), s)
  {
    FilterIsSubsequence(s, y => y != x);
  }

  lemma WithoutAbsent<T>(s: seq<T>, x: T)
    requires x !in s
    ensures Without(s, x) == s
  {
    FilterKeepsAll(s, y => y != x);
  }

  lemma WithoutAppend<T>(a: seq<T>, b: seq<T>, x: T)
    ensures Without(a + b, x) == Without(a, x) + Without(b, x)
  {
    FilterAppend(a, b, y => y != x);
  }

  /** Removing every occurrence of `x` keeps every other element with its multiplicity. */
  lemma {:induction false} WithoutMultiset<T>(s: seq<T>, x: T)
    ensures multiset(Without(s, x)) == multiset(s)[x := 0]
  {
    if s != [] {
      WithoutMultiset(s[1..], x);
      assert s == [s[0]] + s[1..];
      assert multiset(s) == multiset{s[0]} + multiset(s[1..]);
    }
  }

  /** The first index at which `x` occurs. */
  function FirstIndex<T(==)>(s: seq<T>, x: T): (i: nat)
    requires x in s
    ensures i < |s| && s[i] == x
    ensures forall j :: 0 <= j < i ==> s[j] != x
  {
    if s[0] == x then 0 else 1 + FirstIndex(s[1..], x)
  }

  /** The last index at which `x` occurs. */
  function LastIndex<T(==)>(s: seq<T>, x: T): (i: nat)
    requires x in s
    ensures i < |s| && s[i] == x
    ensures forall j :: i < j < |s| ==> s[j] != x
  {
    if s[|s| - 1] == x then |s| - 1 else LastIndex(s[..|s| - 1], x)
  }

  /** `indexOf`: the first index of `x`, or -1 when it does not occur. */
  function IndexOf<T(==)>(s: seq<T>, x: T): (i: int)
    ensures i == -1 <==> x !in s
    ensures 0 <= i ==> i < |s| && s[i] == x && forall j :: 0 <= j < i ==> s[j] != x
  {
    if x in s then FirstIndex(s, x) else -1
  }

  /** An occurrence with none before it is the first one. */
  lemma FirstIndexUnique<T>(s: seq<T>, x: T, k: int)
    requires 0 <= k < |s| && s[k] == x && forall j :: 0 <= j < k ==> s[j] != x
    ensures FirstIndex(s, x) == k
  {
    var f := FirstIndex(s, x);
    assert !(f < k) && !(k < f);
  }

  /** Extending a sequence at the end does not move a first occurrence. */
  lemma FirstIndexPrefix<T>(a: seq<T>, b: seq<T>, x: T)
    requires x in a
    ensures x in a + b && FirstIndex(a + b, x) == FirstIndex(a, x)
  {
    var k := FirstIndex(a, x);
    assert (a + b)[k] == x;
  }

  /** An occurrence with none after it is the last one. */
  lemma LastIndexUnique<T>(s: seq<T>, x: T, k: int)
    requires 0 <= k < |s| && s[k] == x && forall j :: k < j < |s| ==> s[j] != x
    ensures LastIndex(s, x) == k
  {
    var l := LastIndex(s, x);
    assert !(l < k) && !(k < l);
  }

  /** Extending a sequence at the end does not move a last occurrence absent from the extension. */
  lemma LastIndexPrefix<T>(a: seq<T>, b: seq<T>, x: T)
    requires x in a && x !in b
    ensures x in a + b && LastIndex(a + b, x) == LastIndex(a, x)
  {
    var k := LastIndex(a, x);
    assert (a + b)[k] == x;
    forall j | k < j < |a + b|
      ensures (a + b)[j] != x
    {
      if j >= |a| {
        assert (a + b)[j] == b[j - |a|];
      }
    }
  }

  /** First-seen de-duplication: each element once, at the place it first occurs
      (the iteration order of a JavaScript `Set` filled from `s`). */
  function Dedup<T(==)>(s: seq<T>): seq<T>
  {
    if s == [] then []
    else
      var d := Dedup(s[..|s| - 1]);
      if s[|s| - 1] in d then d else d + [s[|s| - 1]]
  }

  /** One more element, unfolded. */
  lemma DedupSnoc<T>(s: seq<T>, x: T)
    ensures Dedup(s + [x]) == if x in Dedup(s) then Dedup(s) else Dedup(s) + [x]
  {
    assert (s + [x])[..|s|] == s;
  }

  /** `Dedup` of a growing prefix `before + xs[..j]`, one element at a time. */
  lemma DedupStep<T>(before: seq<T>, xs: seq<T>, j: int)
    requires 0 <= j < |xs|
    ensures Dedup(before + xs[..j + 1]) ==
      if xs[j] in Dedup(before + xs[..j]) then Dedup(before + xs[..j]) else Dedup(before + xs[..j]) + [xs[j]]
  {
    assert xs[..j + 1] == xs[..j] + [xs[j]];
    assert before + xs[..j + 1] == (before + xs[..j]) + [xs[j]];
    DedupSnoc(before + xs[..j], xs[j]);
  }

  lemma {:induction false} DedupMembers<T>(s: seq<T>)
    ensures forall x :: x in Dedup(s) <==> x in s
  {
    if s != [] {
      DedupMembers(s[..|s| - 1]);
      assert s == s[..|s| - 1] + [s[|s| - 1]];
    }
  }

  lemma {:induction false} DedupNoDup<T>(s: seq<T>)
    ensures NoDup(Dedup(s))
  {
    if s != [] {
      DedupNoDup(s[..|s| - 1]);
      var d := Dedup(s[..|s| - 1]);
      if s[|s| - 1] !in d {
        NoDupSnoc(d, s[|s| - 1]);
      }
    }
  }

  /** The de-duplicated elements keep the order of their first occurrences. */
  lemma {:induction false} DedupFirstSeenOrder<T>(s: seq<T>)
    ensures forall i :: 0 <= i < |Dedup(s)| ==> Dedup(s)[i] in s
    ensures forall i, j :: 0 <= i < j < |Dedup(s)| ==>
      FirstIndex(s, Dedup(s)[i]) < FirstIndex(s, Dedup(s)[j])
  {
    if s != [] {
      var init, last := s[..|s| - 1], s[|s| - 1];
      assert s == init + [last];
      DedupFirstSeenOrder(init);
      var d := Dedup(init);
      forall i | 0 <= i < |d| ensures d[i] in s && FirstIndex(s, d[i]) == FirstIndex(init, d[i]) < |init| {
        FirstIndexPrefix(init, [last], d[i]);
      }
      if last !in d {
        DedupMembers(init);
        FirstIndexUnique(s, last, |init|);
      }
    }
  }

  /** A duplicate-free sequence is its own de-duplication. */
  lemma {:induction false} DedupOfNoDup<T>(s: seq<T>)
    requires NoDup(s)
    ensures Dedup(s) == s
  {
    if s != [] {
      var init := s[..|s| - 1];
      assert NoDup(init) by {
        forall i, j | 0 <= i < j < |init| ensures init[i] != init[j] {
          assert init[i] == s[i] && init[j] == s[j];
        }
      }
      DedupOfNoDup(init);
      assert s[|s| - 1] !in init;
      assert s == init + [s[|s| - 1]];
    }
  }

  /** Appending elements already present changes nothing. */
  lemma {:induction false} DedupAbsorbs<T>(s: seq<T>, t: seq<T>)
    requires forall i :: 0 <= i < |t| ==> t[i] in s
    ensures Dedup(s + t) == Dedup(s)
  {
    if t != [] {
      var init := t[..|t| - 1];
      DedupAbsorbs(s, init);
      var st := s + t;
      assert st[..|st| - 1] == s + init;
      DedupMembers(s);
      assert st[|st| - 1] == t[|t| - 1] && t[|t| - 1] in Dedup(s);
    } else {
      assert s + t == s;
    }
  }

  /** The index of the first element `pred` accepts, or `|s|` when there is none. */
  function FirstMatch<T>(s: seq<T>, pred: T -> bool): (i: nat)
    ensures i <= |s| && (i < |s| ==> pred(s[i]))
    ensures forall j :: 0 <= j < i ==> !pred(s[j])
  {
    if s == [] then 0
    else if pred(s[0]) then 0
    else 1 + FirstMatch(s[1..], pred)
  }

  /** The first element `pred` accepts (JavaScript's `Array.prototype.find`). */
  function FindFirst<T>(s: seq<T>, pred: T -> bool): (r: Option<T>)
    ensures r.None? <==> forall i :: 0 <= i < |s| ==> !pred(s[i])
    ensures r.Some? ==> exists i :: (0 <= i < |s| && s[i] == r.value && pred(s[i]) &&
      forall j :: 0 <= j < i ==> !pred(s[j]))
  {
    var i := FirstMatch(s, pred);
    if i < |s| then Some(s[i]) else None
  }

  /** Inserts `x` after every element that `cmp` does not rank above it. */
  function InsertBy<T>(sorted: seq<T>, x: T, cmp: (T, T) -> int): (r: seq<T>)
    ensures multiset(r) == multiset(sorted) + multiset{x}
  {
    if sorted == [] then [x]
    else if cmp(x, sorted[0]) < 0 then [x] + sorted
    else
      var rest := InsertBy(sorted[1..], x, cmp);
      assert sorted == [sorted[0]] + sorted[1..];
      [sorted[0]] + rest
  }

  /** A sort by comparator (`Array.prototype.sort(cmp)`), as a stable insertion sort. */
  function SortBy<T>(s: seq<T>, cmp: (T, T) -> int): (r: seq<T>)
    ensures multiset(r) == multiset(s)
  {
    if s == [] then []
    else
      var r := InsertBy(SortBy(s[..|s| - 1], cmp), s[|s| - 1], cmp);
      assert s == s[..|s| - 1] + [s[|s| - 1]];
      r
  }

  /** An element ranked at or above everything goes last. */
  lemma {:induction false} InsertByLast<T>(sorted: seq<T>, x: T, cmp: (T, T) -> int)
    requires forall i :: 0 <= i < |sorted| ==> cmp(x, sorted[i]) >= 0
    ensures InsertBy(sorted, x, cmp) == sorted + [x]
  {
    if sorted != [] {
      InsertByLast(sorted[1..], x, cmp);
      assert sorted == [sorted[0]] + sorted[1..];
    }
  }

  /** Every later element ranks at or above every earlier one. */
  predicate OrderedBy<T>(s: seq<T>, cmp: (T, T) -> int)
  {
    forall i, j :: 0 <= i < j < |s| ==> cmp(s[j], s[i]) >= 0
  }

  /** An ordered sequence without its last element is still ordered. */
  lemma OrderedByInit<T>(s: seq<T>, cmp: (T, T) -> int)
    requires s != [] && OrderedBy(s, cmp)
    ensures OrderedBy(s[..|s| - 1], cmp)
  {
    var init := s[..|s| - 1];
    forall i, j | 0 <= i < j < |init| ensures cmp(init[j], init[i]) >= 0 {
      assert init[i] == s[i] && init[j] == s[j];
    }
  }

  /** The last element of an ordered sequence ranks at or above all before it. */
  lemma OrderedByLast<T>(s: seq<T>, init: seq<T>, x: T, cmp: (T, T) -> int)
    requires s != [] && init == s[..|s| - 1] && x == s[|s| - 1] && OrderedBy(s, cmp)
    ensures forall i :: 0 <= i < |init| ==> cmp(x, init[i]) >= 0
  {
    forall i | 0 <= i < |init| ensures cmp(x, init[i]) >= 0 {
      assert init[i] == s[i];
    }
  }

  /** The sort leaves a sequence already in comparator order unchanged. */
  lemma {:induction false} SortByOrdered<T>(s: seq<T>, cmp: (T, T) -> int)
    requires OrderedBy(s, cmp)
    ensures SortBy(s, cmp) == s
  {
    if s != [] {
      var init, x := s[..|s| - 1], s[|s| - 1];
      OrderedByInit(s, cmp);
      SortByOrdered(init, cmp);
      OrderedByLast(s, init, x, cmp);
      InsertByLast(init, x, cmp);
      InitLast(s);
    }
  }

  /** A non-empty sequence is its prefix followed by its last element. */
  lemma InitLast<T>(s: seq<T>)
    requires s != []
    ensures s == s[..|s| - 1] + [s[|s| - 1]]
  {
  }

  lemma {:induction false} InsertByNoDup<T>(sorted: seq<T>, x: T, cmp: (T, T) -> int)
    requires NoDup(sorted) && x !in sorted
    ensures NoDup(InsertBy(sorted, x, cmp))
  {
    if sorted == [] {
    } else if cmp(x, sorted[0]) < 0 {
      NoDupCons(x, sorted);
    } else {
      assert sorted == [sorted[0]] + sorted[1..];
      assert NoDup(sorted[1..]) by {
        forall i, j | 0 <= i < j < |sorted[1..]| ensures sorted[1..][i] != sorted[1..][j] {
          assert sorted[1..][i] == sorted[i + 1] && sorted[1..][j] == sorted[j + 1];
        }
      }
      InsertByNoDup(sorted[1..], x, cmp);
      var rest := InsertBy(sorted[1..], x, cmp);
      assert sorted[0] !in multiset(rest);
      NoDupCons(sorted[0], rest);
    }
  }

  lemma {:induction false} SortByNoDup<T>(s: seq<T>, cmp: (T, T) -> int)
    requires NoDup(s)
    ensures NoDup(SortBy(s, cmp))
  {
    if s != [] {
      var init, last := s[..|s| - 1], s[|s| - 1];
      assert NoDup(init) by {
        forall i, j | 0 <= i < j < |init| ensures init[i] != init[j] {
          assert init[i] == s[i] && init[j] == s[j];
        }
      }
      SortByNoDup(init, cmp);
      assert last !in init by {
        forall i | 0 <= i < |init| ensures init[i] != last {
          assert init[i] == s[i];
        }
      }
      assert last !in multiset(SortBy(init, cmp));
      InsertByNoDup(SortBy(init, cmp), last, cmp);
    }
  }

  /** Non-decreasing by `key`. */
  predicate SortedByKey<T>(s: seq<T>, key: T -> int)
  {
    forall i, j :: 0 <= i < j < |s| ==> key(s[i]) <= key(s[j])
  }

  lemma SortedCons<T>(h: T, t: seq<T>, key: T -> int)
    requires SortedByKey(t, key)
    requires forall y :: y in t ==> key(h) <= key(y)
    ensures SortedByKey([h] + t, key)
  {
    var r := [h] + t;
    forall i, j | 0 <= i < j < |r| ensures key(r[i]) <= key(r[j]) {
      assert r[j] == t[j - 1];
      if i > 0 {
        assert r[i] == t[i - 1];
      }
    }
  }

  lemma InsertByMembers<T>(sorted: seq<T>, x: T, cmp: (T, T) -> int, y: T)
    ensures y in InsertBy(sorted, x, cmp) <==> y in sorted || y == x
  {
    var r := InsertBy(sorted, x, cmp);
    assert y in r <==> y in multiset(r);
    assert y in sorted <==> y in multiset(sorted);
  }

  lemma {:induction false} InsertBySorted<T>(sorted: seq<T>, x: T, cmp: (T, T) -> int, key: T -> int)
    requires SortedByKey(sorted, key)
    requires forall y :: y in sorted ==> (cmp(x, y) < 0 <==> key(x) < key(y))
    ensures SortedByKey(InsertBy(sorted, x, cmp), key)
  {
    if sorted == [] {
    } else if cmp(x, sorted[0]) < 0 {
      forall y | y in sorted ensures key(x) <= key(y) {
        var m :| 0 <= m < |sorted| && sorted[m] == y;
        assert key(sorted[0]) <= key(sorted[m]) || m == 0;
      }
      SortedCons(x, sorted, key);
    } else {
      var head, tail := sorted[0], sorted[1..];
      assert SortedByKey(tail, key) by {
        forall i, j | 0 <= i < j < |tail| ensures key(tail[i]) <= key(tail[j]) {
          assert tail[i] == sorted[i + 1] && tail[j] == sorted[j + 1];
        }
      }
      assert forall y :: y in tail ==> y in sorted;
      InsertBySorted(tail, x, cmp, key);
      var rest := InsertBy(tail, x, cmp);
      forall y | y in rest ensures key(head) <= key(y) {
        InsertByMembers(tail, x, cmp, y);
        if y != x {
          var m :| 0 <= m < |tail| && tail[m] == y;
          assert sorted[m + 1] == y;
        }
      }
      SortedCons(head, rest, key);
    }
  }

  /** When the comparator orders the elements by a key, the sort is non-decreasing by that key. */
  lemma {:induction false} SortBySorted<T>(s: seq<T>, cmp: (T, T) -> int, key: T -> int)
    requires forall a, b :: a in s && b in s ==> (cmp(a, b) < 0 <==> key(a) < key(b))
    ensures SortedByKey(SortBy(s, cmp), key)
  {
    if s != [] {
      var init, last := s[..|s| - 1], s[|s| - 1];
      assert forall a :: a in init ==> a in s;
      SortBySorted(init, cmp, key);
      var t := SortBy(init, cmp);
      forall y | y in t ensures cmp(last, y) < 0 <==> key(last) < key(y) {
        assert y in multiset(init);
      }
      InsertBySorted(t, last, cmp, key);
    }
  }
}
