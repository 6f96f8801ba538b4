/** Sequence vocabulary shared by the page-selection code: Python's `range`, first-occurrence
    de-duplication, indexing a document by a list of positions, and concatenation. */
module Sequences {

  /** Python's `list(range(lo, hi))`. */
  function Interval(lo: int, hi: int): (r: seq<int>)
    ensures |r| == if hi > lo then hi - lo else 0
    ensures forall k :: 0 <= k < |r| ==> r[k] == lo + k
  {
    if hi <= lo then [] else seq(hi - lo, k => lo + k)
  }

  predicate Distinct<T(==)>(s: seq<T>) {
    forall i, j :: 0 <= i < j < |s| ==> s[i] != s[j]
  }

  /** Position of the first occurrence of `x` in `s` (Python's `s.index(x)`). */
  function FirstIndex<T(==)>(s: seq<T>, x: T): (i: nat)
    requires x in s
    ensures i < |s| && s[i] == x && x !in s[..i]
  {
    if s[0] == x then 0 else
      var j := FirstIndex(s[1..], x);
      assert s[..j + 1] == [s[0]] + s[1..][..j];
      j + 1
  }

  lemma FirstIndexUnique<T>(s: seq<T>, x: T, i: nat)
    requires i < |s| && s[i] == x && x !in s[..i]
    ensures FirstIndex(s, x) == i
  {
  }

  /** The first occurrence of a value in a prefix is its first occurrence in the whole sequence. */
  lemma FirstIndexInPrefix<T>(s: seq<T>, m: nat, x: T)
    requires m <= |s| && x in s[..m]
    ensures FirstIndex(s, x) == FirstIndex(s[..m], x)
  {
    var f := FirstIndex(s[..m], x);
    assert s[..f] == s[..m][..f];
    FirstIndexUnique(s, x, f);
  }

  /** `[x for x in s if x not in seen and not seen.add(x)]`: each value kept at its first occurrence. */
  function Dedup<T(==)>(s: seq<T>): (r: seq<T>)
    ensures |r| <= |s|
    decreases |s|
  {
    if s == [] then []
    else
      var init := s[..|s| - 1];
      if s[|s| - 1] in init then Dedup(init) else Dedup(init) + [s[|s| - 1]]
  }

  /** De-duplication keeps exactly the values of its input. */
  lemma {:induction false} DedupMember<T>(s: seq<T>, x: T)
    ensures x in Dedup(s) <==> x in s
    decreases |s|
  {
    if s != [] {
      var init := s[..|s| - 1];
      DedupMember(init, x);
      assert s == init + [s[|s| - 1]];
    }
  }

  /** De-duplication leaves no value twice. */
  lemma {:induction false} DedupDistinct<T>(s: seq<T>)
    ensures Distinct(Dedup(s))
    decreases |s|
  {
    if s != [] {
      var init := s[..|s| - 1];
      DedupDistinct(init);
      DedupMember(init, s[|s| - 1]);
    }
  }

  /** A sequence without repeats is left unchanged. */
  lemma {:induction false} DedupOfDistinct<T>(s: seq<T>)
    requires Distinct(s)
    ensures Dedup(s) == s
    decreases |s|
  {
    if s != [] {
      var init := s[..|s| - 1];
      DedupOfDistinct(init);
      assert s == init + [s[|s| - 1]];
    }
  }

  /** De-duplication keeps first-occurrence order: a value comes before another in the result
      exactly when its first occurrence in the input comes first. */
  lemma {:induction false} DedupKeepsFirstOccurrenceOrder<T>(s: seq<T>, i: nat, j: nat)
    requires i < j < |Dedup(s)|
    ensures Dedup(s)[i] in s && Dedup(s)[j] in s
    ensures FirstIndex(s, Dedup(s)[i]) < FirstIndex(s, Dedup(s)[j])
    decreases |s|
  {
    var n := |s|;
    var init := s[..n - 1];
    var d := Dedup(init);
    if j < |d| {
      DedupKeepsFirstOccurrenceOrder(init, i, j);
      DedupPrefixOrder(s, i, j);
    } else {
      DedupNewLast(s, i);
    }
  }

  /** The order of two values kept from the prefix carries over to the whole sequence. */
  lemma DedupPrefixOrder<T>(s: seq<T>, i: nat, j: nat)
    requires s != [] && i < j < |Dedup(s[..|s| - 1])|
    requires Dedup(s[..|s| - 1])[i] in s[..|s| - 1] && Dedup(s[..|s| - 1])[j] in s[..|s| - 1]
    requires FirstIndex(s[..|s| - 1], Dedup(s[..|s| - 1])[i]) < FirstIndex(s[..|s| - 1], Dedup(s[..|s| - 1])[j])
    ensures j < |Dedup(s)| && Dedup(s)[i] in s && Dedup(s)[j] in s
    ensures FirstIndex(s, Dedup(s)[i]) < FirstIndex(s, Dedup(s)[j])
  {
    var init := s[..|s| - 1];
    var d := Dedup(init);
    assert j < |Dedup(s)| && Dedup(s)[i] == d[i] && Dedup(s)[j] == d[j] by {
      DedupExtends(s, i);
      DedupExtends(s, j);
    }
    assert d[i] in s && d[j] in s by {
      var a, b := FirstIndex(init, d[i]), FirstIndex(init, d[j]);
      assert s[a] == init[a] && s[b] == init[b];
    }
    assert FirstIndex(s, d[i]) == FirstIndex(init, d[i]) by {
      FirstIndexInPrefix(s, |s| - 1, d[i]);
    }
    assert FirstIndex(s, d[j]) == FirstIndex(init, d[j]) by {
      FirstIndexInPrefix(s, |s| - 1, d[j]);
    }
  }

  /** The de-duplicated prefix is a prefix of the de-duplicated sequence. */
  lemma DedupExtends<T>(s: seq<T>, k: nat)
    requires s != [] && k < |Dedup(s[..|s| - 1])|
    ensures k < |Dedup(s)| && Dedup(s)[k] == Dedup(s[..|s| - 1])[k]
    ensures Dedup(s[..|s| - 1])[k] in s[..|s| - 1]
  {
    DedupMember(s[..|s| - 1], Dedup(s[..|s| - 1])[k]);
  }

  /** A last value seen for the first time comes after every value kept before it. */
  lemma DedupNewLast<T>(s: seq<T>, i: nat)
    requires s != [] && i < |Dedup(s[..|s| - 1])| < |Dedup(s)|
    ensures |Dedup(s)| == |Dedup(s[..|s| - 1])| + 1
    ensures Dedup(s)[i] in s && Dedup(s)[|Dedup(s[..|s| - 1])|] == s[|s| - 1]
    ensures FirstIndex(s, Dedup(s)[i]) < FirstIndex(s, s[|s| - 1])
  {
    var n := |s|;
    var init := s[..n - 1];
    var d := Dedup(init);
    assert s[n - 1] !in init && Dedup(s) == d + [s[n - 1]];
    DedupMember(init, d[i]);
    FirstIndexUnique(s, s[n - 1], n - 1);
    FirstIndexInPrefix(s, n - 1, d[i]);
  }

  predicate InBounds(ix: seq<int>, n: int) {
    forall k :: 0 <= k < |ix| ==> 0 <= ix[k] < n
  }

  /** `[doc[i] for i in ix]`: the elements at the given positions, in the given order. */
  function Select<T>(doc: seq<T>, ix: seq<int>): (r: seq<T>)
    requires InBounds(ix, |doc|)
    ensures |r| == |ix| && forall k :: 0 <= k < |ix| ==> r[k] == doc[ix[k]]
  {
    seq(|ix|, k requires 0 <= k < |ix| => doc[ix[k]])
  }

  lemma SelectAppend<T>(doc: seq<T>, a: seq<int>, b: seq<int>)
    requires InBounds(a, |doc|) && InBounds(b, |doc|)
    ensures InBounds(a + b, |doc|)
    ensures Select(doc, a + b) == Select(doc, a) + Select(doc, b)
  {
  }

  /** Selecting a run of consecutive positions is slicing. */
  lemma SelectInterval<T>(doc: seq<T>, lo: int, hi: int)
    requires 0 <= lo <= hi <= |doc|
    ensures InBounds(Interval(lo, hi), |doc|)
    ensures Select(doc, Interval(lo, hi)) == doc[lo..hi]
  {
  }

  /** Selecting every position in order gives the sequence back. */
  lemma SelectAll<T>(doc: seq<T>)
    ensures InBounds(Interval(0, |doc|), |doc|)
    ensures Select(doc, Interval(0, |doc|)) == doc
  {
  }

  /** Removing position `j` removes one copy of `s[j]` from the multiset. */
  lemma RemoveAt<T>(s: seq<T>, j: nat)
    requires j < |s|
    ensures multiset(s[..j] + s[j + 1..]) == multiset(s) - multiset{s[j]}
    ensures multiset(s) == multiset(s[..j] + s[j + 1..]) + multiset{s[j]}
  {
    assert s == s[..j] + [s[j]] + s[j + 1..];
  }

  /** Dropping position `j` of the positions drops one copy of `doc[b[j]]` from the selection. */
  lemma SelectRemoveAt<T>(doc: seq<T>, b: seq<int>, j: nat)
    requires InBounds(b, |doc|) && j < |b|
    ensures InBounds(b[..j] + b[j + 1..], |doc|)
    ensures multiset(Select(doc, b)) == multiset(Select(doc, b[..j] + b[j + 1..])) + multiset{doc[b[j]]}
  {
    var sb := Select(doc, b);
    assert Select(doc, b[..j] + b[j + 1..]) == sb[..j] + sb[j + 1..];
    RemoveAt(sb, j);
  }

  /** What a selection contains depends only on the multiset of positions, not on their order. */
  lemma {:induction false} SelectPermutation<T>(doc: seq<T>, a: seq<int>, b: seq<int>)
    requires InBounds(a, |doc|) && InBounds(b, |doc|)
    requires multiset(a) == multiset(b)
    ensures multiset(Select(doc, a)) == multiset(Select(doc, b))
    decreases |a|
  {
    if a == [] {
      assert |b| == |multiset(b)| == 0;
    } else {
      assert a[0] in multiset(b);
      var j := FirstIndex(b, a[0]);
      var a', b' := a[..0] + a[1..], b[..j] + b[j + 1..];
      RemoveMatching(a, b, j);
      SelectRemoveAt(doc, a, 0);
      SelectRemoveAt(doc, b, j);
      SelectPermutation(doc, a', b');
    }
  }

  /** Taking one copy of the same value out of two sequences with equal multisets leaves
      equal multisets. */
  lemma RemoveMatching<T>(a: seq<T>, b: seq<T>, j: nat)
    requires a != [] && j < |b| && b[j] == a[0] && multiset(a) == multiset(b)
    ensures multiset(a[..0] + a[1..]) == multiset(b[..j] + b[j + 1..])
  {
    RemoveAt(a, 0);
    RemoveAt(b, j);
  }

  /** In a sequence without repeats every member occurs exactly once. */
  lemma {:induction false} DistinctCounts<T>(s: seq<T>)
    requires Distinct(s)
    ensures forall x :: multiset(s)[x] == if x in s then 1 else 0
    decreases |s|
  {
    if s != [] {
      var init := s[..|s| - 1];
      DistinctCounts(init);
      assert s == init + [s[|s| - 1]];
    }
  }

  /** A sequence in which some value occurs twice has a multiset count of at least two for it. */
  lemma RepeatCounts<T>(s: seq<T>, i: nat, j: nat)
    requires i < j < |s| && s[i] == s[j]
    ensures multiset(s)[s[i]] >= 2
  {
    assert s == s[..j] + s[j..];
    assert s[i] in s[..j];
    assert s[j] in s[j..];
  }

  /** A list of positions uses every position below `n` exactly once (the test Python spells
      `sorted(ix) == list(range(n))`) exactly when it has length `n`, no repeats, and only
      positions below `n`. */
  lemma PermutationOfInterval(ix: seq<int>, n: nat)
    ensures multiset(ix) == multiset(Interval(0, n)) <==> |ix| == n && Distinct(ix) && InBounds(ix, n)
  {
    if multiset(ix) == multiset(Interval(0, n)) {
      PermutationOfIntervalShape(ix, n);
    }
    if |ix| == n && Distinct(ix) && InBounds(ix, n) {
      ShapeIsPermutationOfInterval(ix, n);
    }
  }

  lemma PermutationOfIntervalShape(ix: seq<int>, n: nat)
    requires multiset(ix) == multiset(Interval(0, n))
    ensures |ix| == n && Distinct(ix) && InBounds(ix, n)
  {
    var all := Interval(0, n);
    DistinctCounts(all);
    assert |ix| == |multiset(ix)| == |multiset(all)| == n;
    forall k | 0 <= k < |ix| ensures 0 <= ix[k] < n {
      assert ix[k] in multiset(all);
    }
    if !Distinct(ix) {
      var i, j :| 0 <= i < j < |ix| && ix[i] == ix[j];
      RepeatCounts(ix, i, j);
      assert false;
    }
  }

  lemma ShapeIsPermutationOfInterval(ix: seq<int>, n: nat)
    requires |ix| == n && Distinct(ix) && InBounds(ix, n)
    ensures multiset(ix) == multiset(Interval(0, n))
  {
    var all := Interval(0, n);
    var m, M := multiset(ix), multiset(all);
    assert m <= M by {
      DistinctCounts(all);
      DistinctCounts(ix);
      forall x ensures m[x] <= M[x] {
        if x in ix {
          var k := FirstIndex(ix, x);
          assert all[x] == x;
        }
      }
    }
    assert M == m + (M - m);
    assert |M| == |m| + |M - m|;
    assert |M - m| == 0;
    assert M - m == multiset{};
  }

  /** Python's `for d in docs: out.extend(d)`: the concatenation, left to right. */
  function Flatten<T>(docs: seq<seq<T>>): (r: seq<T>)
    ensures |r| == SumLengths(docs)
    decreases |docs|
  {
    if docs == [] then [] else Flatten(docs[..|docs| - 1]) + docs[|docs| - 1]
  }

  function SumLengths<T>(docs: seq<seq<T>>): nat
    decreases |docs|
  {
    if docs == [] then 0 else SumLengths(docs[..|docs| - 1]) + |docs[|docs| - 1]|
  }

  /** Concatenating the one-element pieces of a sequence gives the sequence back. */
  lemma {:induction false} FlattenSingletons<T>(s: seq<T>)
    ensures Flatten(seq(|s|, k requires 0 <= k < |s| => [s[k]])) == s
    decreases |s|
  {
    if s != [] {
      var init := s[..|s| - 1];
      var pieces := seq(|s|, k requires 0 <= k < |s| => [s[k]]);
      assert pieces[..|s| - 1] == seq(|init|, k requires 0 <= k < |init| => [init[k]]);
      FlattenSingletons(init);
      assert s == init + [s[|s| - 1]];
    }
  }
}
