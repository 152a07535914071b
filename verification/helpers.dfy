/**
 * Sequence helpers of lib/utils/helpers.ts: `uniquePairs`, which expands an
 * n-ary group into ordered pairs, and `startsWithAny`, a prefix test.
 */
module Helpers {
  import opened Js

  /** No element is `equals` to an element before it. */
  ghost predicate NoDuplicates<T>(s: seq<T>, equals: (T, T) -> bool)
  {
    forall i, j :: 0 <= i < j < |s| ==> !equals(s[j], s[i])
  }

  /** `R.includesWith(equals, x, kept)`: `x` is `equals` to some kept element. */
  predicate IncludesWith<T>(equals: (T, T) -> bool, x: T, kept: seq<T>)
  {
    kept != [] && (equals(x, kept[0]) || IncludesWith(equals, x, kept[1..]))
  }

  /** `x` is `equals` to an element of `kept` exactly when some position says so. */
  lemma {:induction false} IncludesWithAt<T>(equals: (T, T) -> bool, x: T, kept: seq<T>)
    ensures IncludesWith(equals, x, kept) <==> exists k :: 0 <= k < |kept| && equals(x, kept[k])
  {
    if kept != [] {
      IncludesWithAt(equals, x, kept[1..]);
      assert forall k :: 1 <= k < |kept| ==> kept[k] == kept[1..][k - 1];
    }
  }

  /**
   * `R.uniqWith(equals, s)`: scanning left to right, an element is kept unless
   * it is `equals` to an element kept before it.
   */
  function UniqWith<T>(s: seq<T>, equals: (T, T) -> bool): (u: seq<T>)
    ensures |u| <= |s|
  {
    if s == [] then []
    else
      var u := UniqWith(s[..|s| - 1], equals);
      var x := s[|s| - 1];
      if IncludesWith(equals, x, u) then u else u + [x]
  }

  /** What `uniqWith` keeps has no two `equals` elements, and a list that has
      none is kept whole. */
  lemma {:induction false} UniqWithDeduplicates<T>(s: seq<T>, equals: (T, T) -> bool)
    ensures NoDuplicates(UniqWith(s, equals), equals)
    ensures NoDuplicates(s, equals) ==> UniqWith(s, equals) == s
  {
    if s != [] {
      var init := s[..|s| - 1];
      UniqWithDeduplicates(init, equals);
      var u := UniqWith(init, equals);
      IncludesWithAt(equals, s[|s| - 1], u);
      assert NoDuplicates(s, equals) ==> NoDuplicates(init, equals);
      if NoDuplicates(s, equals) {
        var x := s[|s| - 1];
        IncludesWithAt(equals, x, init);
        forall k | 0 <= k < |init|
          ensures !equals(x, init[k])
        {
          assert init[k] == s[k];
        }
        assert init + [x] == s;
      }
    }
  }

  /** `y` is kept, or is `equals` to a kept element. */
  ghost predicate CoveredBy<T>(y: T, kept: seq<T>, equals: (T, T) -> bool)
  {
    exists k :: 0 <= k < |kept| && (kept[k] == y || equals(y, kept[k]))
  }

  /** `uniqWith` keeps only elements of the input, and every element of the
      input is kept or is `equals` to an element that is. */
  lemma {:induction false} UniqWithCovers<T>(s: seq<T>, equals: (T, T) -> bool)
    ensures forall x :: x in UniqWith(s, equals) ==> x in s
    ensures forall i :: 0 <= i < |s| ==> CoveredBy(s[i], UniqWith(s, equals), equals)
  {
    if s != [] {
      var init := s[..|s| - 1];
      var x := s[|s| - 1];
      var u := UniqWith(init, equals);
      UniqWithCovers(init, equals);
      IncludesWithAt(equals, x, u);
      var kept := UniqWith(s, equals);
      assert kept == if IncludesWith(equals, x, u) then u else u + [x];
      assert forall y :: y in init ==> y in s;
      forall i | 0 <= i < |s|
        ensures CoveredBy(s[i], kept, equals)
      {
        if i < |init| {
          assert s[i] == init[i];
          assert CoveredBy(init[i], u, equals);
          var k :| 0 <= k < |u| && (u[k] == init[i] || equals(init[i], u[k]));
          assert kept[k] == u[k];
        } else if IncludesWith(equals, x, u) {
          var k :| 0 <= k < |u| && equals(x, u[k]);
          assert kept[k] == u[k];
        } else {
          assert kept[|u|] == x;
        }
      }
    }
  }

  /**
   * `u` is `s` at the strictly increasing positions `idx`, and every position
   * left out of `idx` is `equals` to an element kept from an earlier position.
   */
  ghost predicate FirstOccurrences<T>(s: seq<T>, u: seq<T>, idx: seq<nat>, equals: (T, T) -> bool)
  {
    && |idx| == |u|
    && (forall k :: 0 <= k < |idx| ==> idx[k] < |s| && u[k] == s[idx[k]])
    && (forall k, l :: 0 <= k < l < |idx| ==> idx[k] < idx[l])
    && (forall i :: 0 <= i < |s| && i !in idx ==>
          exists k :: 0 <= k < |idx| && idx[k] < i && equals(s[i], u[k]))
  }

  /** A last element `equals` to a kept one is skipped: the positions stay. */
  lemma FirstOccurrencesSkip<T>(s: seq<T>, u: seq<T>, idx: seq<nat>, equals: (T, T) -> bool, k: nat)
    requires s != [] && FirstOccurrences(s[..|s| - 1], u, idx, equals)
    requires k < |u| && equals(s[|s| - 1], u[k])
    ensures FirstOccurrences(s, u, idx, equals)
  {
    var init := s[..|s| - 1];
    assert forall j :: 0 <= j < |init| ==> s[j] == init[j];
    forall i | 0 <= i < |s| && i !in idx
      ensures exists k' :: 0 <= k' < |idx| && idx[k'] < i && equals(s[i], u[k'])
    {
      if i < |init| {
        var k' :| 0 <= k' < |idx| && idx[k'] < i && equals(init[i], u[k']);
      } else {
        assert idx[k] < i;
      }
    }
  }

  /** A last element kept by `uniqWith` adds its own position. */
  lemma FirstOccurrencesKeep<T>(s: seq<T>, u: seq<T>, idx: seq<nat>, equals: (T, T) -> bool)
    requires s != [] && FirstOccurrences(s[..|s| - 1], u, idx, equals)
    ensures FirstOccurrences(s, u + [s[|s| - 1]], idx + [|s| - 1], equals)
  {
    var init := s[..|s| - 1];
    var kept := u + [s[|s| - 1]];
    var idx' := idx + [|init|];
    assert forall j :: 0 <= j < |init| ==> s[j] == init[j];
    forall k | 0 <= k < |idx'|
      ensures idx'[k] < |s| && kept[k] == s[idx'[k]]
    {
      if k < |u| {
        assert idx'[k] == idx[k] && kept[k] == u[k];
      }
    }
    forall i | 0 <= i < |s| && i !in idx'
      ensures exists k :: 0 <= k < |idx'| && idx'[k] < i && equals(s[i], kept[k])
    {
      assert i != |init| && i !in idx;
      var k :| 0 <= k < |idx| && idx[k] < i && equals(init[i], u[k]);
      assert idx'[k] == idx[k] && kept[k] == u[k];
    }
  }

  /** `uniqWith` keeps the first element of each run of `equals` elements,
      in input order. */
  lemma {:induction false} UniqWithFirstOccurrences<T>(s: seq<T>, equals: (T, T) -> bool)
    ensures exists idx :: FirstOccurrences(s, UniqWith(s, equals), idx, equals)
  {
    if s == [] {
      assert FirstOccurrences(s, UniqWith(s, equals), [], equals);
    } else {
      var init := s[..|s| - 1];
      var x := s[|s| - 1];
      var u := UniqWith(init, equals);
      UniqWithFirstOccurrences(init, equals);
      var idx: seq<nat> :| FirstOccurrences(init, u, idx, equals);
      IncludesWithAt(equals, x, u);
      if IncludesWith(equals, x, u) {
        var k :| 0 <= k < |u| && equals(x, u[k]);
        FirstOccurrencesSkip(s, u, idx, equals, k);
        assert FirstOccurrences(s, UniqWith(s, equals), idx, equals);
      } else {
        FirstOccurrencesKeep(s, u, idx, equals);
        assert FirstOccurrences(s, UniqWith(s, equals), idx + [|s| - 1], equals);
      }
    }
  }

  /** The pairs `(first, get(y))` for the elements `y` of `ys`, in order. */
  function Row<T, K>(first: K, ys: seq<T>, get: T -> K): (r: seq<(K, K)>)
    ensures |r| == |ys|
    ensures forall j :: 0 <= j < |ys| ==> r[j] == (first, get(ys[j]))
  {
    seq(|ys|, j requires 0 <= j < |ys| => (first, get(ys[j])))
  }

  /**
   * The first `k` rows of the outer reduce: row `i` pairs `get(outer[i])` with
   * every element of `source` after position `i`.
   */
  function RowsUpTo<T, K>(outer: seq<T>, source: seq<T>, get: T -> K, k: nat): seq<(K, K)>
    requires k <= |outer| && k <= |source|
  {
    if k == 0 then []
    else RowsUpTo(outer, source, get, k - 1) + Row(get(outer[k - 1]), source[k..], get)
  }

  /** Every pair `(get(s[i]), get(s[j]))` with `i < j`, ordered by `i` then `j`. */
  function OrderedPairs<T, K>(s: seq<T>, get: T -> K): seq<(K, K)>
  {
    RowsUpTo(s, s, get, |s|)
  }

  /**
   * What `uniquePairs` returns as written: nothing below two elements, the one
   * pair at exactly two (no deduplication), and otherwise rows over the
   * deduplicated list whose partners are sliced from the ORIGINAL sequence.
   */
  function PairsAsWritten<T, K>(s: seq<T>, get: T -> K, equals: (T, T) -> bool): seq<(K, K)>
  {
    if |s| < 2 then []
    else if |s| == 2 then [(get(s[0]), get(s[1]))]
    else
      var u := UniqWith(s, equals);
      RowsUpTo(u, s, get, |u|)
  }

  /**
   * The outer reduce and inner forEach of `uniquePairs`: `count` indexes the
   * outer element and each partner is pushed onto the accumulator.
   */
  method PairRows<T, K>(outer: seq<T>, source: seq<T>, get: T -> K) returns (outerAcc: seq<(K, K)>)
    requires |outer| <= |source|
    ensures outerAcc == RowsUpTo(outer, source, get, |outer|)
  {
    outerAcc := [];
    var count := 0;
    while count < |outer|
      invariant 0 <= count <= |outer|
      invariant outerAcc == RowsUpTo(outer, source, get, count)
    {
      var first := get(outer[count]);
      var outerSeq := source[count + 1..];
      var j := 0;
      while j < |outerSeq|
        invariant 0 <= j <= |outerSeq|
        invariant outerAcc == RowsUpTo(outer, source, get, count) + Row(first, outerSeq[..j], get)
      {
        assert Row(first, outerSeq[..j + 1], get) == Row(first, outerSeq[..j], get) + [(first, get(outerSeq[j]))];
        outerAcc := outerAcc + [(first, get(outerSeq[j]))];
        j := j + 1;
      }
      assert outerSeq[..j] == outerSeq;
      count := count + 1;
    }
  }

  /** `uniquePairs(sequence, get, equals)` as written. */
  method UniquePairs<T, K>(sequence: seq<T>, get: T -> K, equals: (T, T) -> bool) returns (pairs: seq<(K, K)>)
    ensures pairs == PairsAsWritten(sequence, get, equals)
  {
    if |sequence| < 2 {
      return [];
    }
    if |sequence| == 2 {
      return [(get(sequence[0]), get(sequence[1]))];
    }
    var unique := UniqWith(sequence, equals);
    pairs := PairRows(unique, sequence, get);
  }

  /**
   * `uniquePairs` with its partners sliced from the deduplicated list, as the
   * name and the use for validation groups intend: every pair of distinct
   * elements exactly once.
   */
  method UniquePairsDeduped<T, K>(sequence: seq<T>, get: T -> K, equals: (T, T) -> bool) returns (pairs: seq<(K, K)>)
    ensures pairs == OrderedPairs(UniqWith(sequence, equals), get)
  {
    var unique := UniqWith(sequence, equals);
    pairs := PairRows(unique, unique, get);
  }

  /** `startsWithAny(strings, valueStr)`: `some` stops at the first matching prefix. */
  method StartsWithAny(strings: seq<string>, valueStr: string) returns (result: bool)
    ensures result <==> exists i :: 0 <= i < |strings| && StartsWith(valueStr, strings[i])
  {
    result := false;
    var i := 0;
    while i < |strings| && !result
      invariant 0 <= i <= |strings|
      invariant !result ==> forall k :: 0 <= k < i ==> !StartsWith(valueStr, strings[k])
      invariant result ==> 0 < i && StartsWith(valueStr, strings[i - 1])
    {
      result := StartsWith(valueStr, strings[i]);
      i := i + 1;
    }
  }

  // ---------------------------------------------------------------------------
  // Properties of uniquePairs

  lemma ShortSequenceHasNoPairs<T, K>(s: seq<T>, get: T -> K, equals: (T, T) -> bool)
    requires |s| < 2
    ensures PairsAsWritten(s, get, equals) == []
    ensures OrderedPairs(UniqWith(s, equals), get) == []
  {
    var u := UniqWith(s, equals);
    if |u| == 1 {
      assert RowsUpTo(u, u, get, 1) == Row(get(u[0]), u[1..], get);
    }
  }

  /** Two elements give their one pair, whether or not they are equal. */
  lemma TwoElementsGiveOnePair<T, K>(s: seq<T>, get: T -> K, equals: (T, T) -> bool)
    requires |s| == 2
    ensures PairsAsWritten(s, get, equals) == [(get(s[0]), get(s[1]))]
  {
  }

  /** For pairwise distinct elements, as written agrees with the intended pairs. */
  lemma {:induction false} DistinctElementsGiveOrderedPairs<T, K>(s: seq<T>, get: T -> K, equals: (T, T) -> bool)
    requires NoDuplicates(s, equals)
    ensures PairsAsWritten(s, get, equals) == OrderedPairs(s, get)
    ensures OrderedPairs(UniqWith(s, equals), get) == OrderedPairs(s, get)
  {
    UniqWithDeduplicates(s, equals);
    assert UniqWith(s, equals) == s;
    if |s| == 2 {
      OrderedPairsOfTwo(s, get);
    } else if |s| < 2 {
      ShortSequenceHasNoPairs(s, get, equals);
    }
  }

  lemma OrderedPairsOfTwo<T, K>(s: seq<T>, get: T -> K)
    requires |s| == 2
    ensures OrderedPairs(s, get) == [(get(s[0]), get(s[1]))]
  {
    assert RowsUpTo(s, s, get, 1) == Row(get(s[0]), s[1..], get);
    assert RowsUpTo(s, s, get, 2) == RowsUpTo(s, s, get, 1) + Row(get(s[1]), s[2..], get);
  }

  /** Later rows leave the pairs of earlier rows where they are. */
  lemma {:induction false} RowsUpToKeeps<T, K>(outer: seq<T>, source: seq<T>, get: T -> K, k: nat, k': nat, n: nat)
    requires k <= k' <= |outer| && k' <= |source|
    requires n < |RowsUpTo(outer, source, get, k)|
    ensures n < |RowsUpTo(outer, source, get, k')|
    ensures RowsUpTo(outer, source, get, k')[n] == RowsUpTo(outer, source, get, k)[n]
    decreases k'
  {
    if k < k' {
      RowsUpToKeeps(outer, source, get, k, k' - 1, n);
    }
  }

  /** n distinct elements give n(n-1)/2 pairs (3 give 3, 4 give 6). */
  lemma OrderedPairsCount<T, K>(s: seq<T>, get: T -> K)
    ensures 2 * |OrderedPairs(s, get)| == |s| * (|s| - 1)
  {
    RowsUpToStart(s, s, get, |s|);
    RowStartClosed(|s|, |s|);
  }

  /** Where row `i` of the ordered pairs of `n` elements starts. */
  function RowStart(i: nat, n: nat): nat
    requires i <= n
  {
    if i == 0 then 0 else RowStart(i - 1, n) + (n - i)
  }

  /** Row `i` has `n - i - 1` pairs, so the first `k` rows hold k(2n-k-1)/2. */
  lemma {:induction false} RowStartClosed(k: nat, n: nat)
    requires k <= n
    ensures 2 * RowStart(k, n) == k * (2 * n - k - 1)
  {
    if k > 0 {
      RowStartClosed(k - 1, n);
    }
  }

  /** The position of the pair of `s[i]` and `s[j]` among the ordered pairs. */
  function PairIndex(i: nat, j: nat, n: nat): nat
    requires i < j < n
  {
    RowStart(i, n) + (j - i - 1)
  }

  lemma {:induction false} RowsUpToStart<T, K>(outer: seq<T>, source: seq<T>, get: T -> K, k: nat)
    requires k <= |outer| && k <= |source|
    ensures |RowsUpTo(outer, source, get, k)| == RowStart(k, |source|)
  {
    if k > 0 {
      RowsUpToStart(outer, source, get, k - 1);
    }
  }

  /** Row `i` holds the pair of `outer[i]` and `source[j]` at offset `j - i - 1`. */
  lemma RowsUpToEntry<T, K>(outer: seq<T>, source: seq<T>, get: T -> K, i: nat, j: nat)
    requires i < |outer| && i < j < |source|
    ensures |RowsUpTo(outer, source, get, i)| + (j - i - 1) < |RowsUpTo(outer, source, get, i + 1)|
    ensures RowsUpTo(outer, source, get, i + 1)[|RowsUpTo(outer, source, get, i)| + (j - i - 1)]
            == (get(outer[i]), get(source[j]))
  {
    var before := RowsUpTo(outer, source, get, i);
    var row := Row(get(outer[i]), source[i + 1..], get);
    assert RowsUpTo(outer, source, get, i + 1) == before + row;
    assert row[j - i - 1] == (get(outer[i]), get(source[j])) by {
      assert source[i + 1..][j - i - 1] == source[j];
    }
    assert (before + row)[|before| + (j - i - 1)] == row[j - i - 1];
  }

  /** The pair of `s[i]` and `s[j]` (`i < j`) sits at `PairIndex(i, j, |s|)`. */
  lemma {:induction false} OrderedPairsAt<T, K>(s: seq<T>, get: T -> K, i: nat, j: nat)
    requires i < j < |s|
    ensures PairIndex(i, j, |s|) < |OrderedPairs(s, get)|
    ensures OrderedPairs(s, get)[PairIndex(i, j, |s|)] == (get(s[i]), get(s[j]))
  {
    RowsUpToStart(s, s, get, i);
    RowsUpToEntry(s, s, get, i, j);
    RowsUpToKeeps(s, s, get, i + 1, |s|, PairIndex(i, j, |s|));
  }

  /**
   * With three or more elements of which `m` are distinct, as written yields
   * the first `m` rows over all `n` elements: the sum over `k < m` of
   * `n - k - 1` pairs, which is m(2n-m-1)/2 by RowStartClosed.
   */
  lemma PairsAsWrittenCount<T, K>(s: seq<T>, get: T -> K, equals: (T, T) -> bool)
    requires |s| >= 3
    ensures |UniqWith(s, equals)| <= |s|
    ensures |PairsAsWritten(s, get, equals)| == RowStart(|UniqWith(s, equals)|, |s|)
  {
    var u := UniqWith(s, equals);
    assert PairsAsWritten(s, get, equals) == RowsUpTo(u, s, get, |u|);
    RowsUpToStart(u, s, get, |u|);
  }

  /**
   * As written, with three or more elements, row `i` pairs the `i`-th kept
   * element with every element of the ORIGINAL sequence after position `i`.
   */
  lemma PairsAsWrittenAt<T, K>(s: seq<T>, get: T -> K, equals: (T, T) -> bool, i: nat, j: nat)
    requires |s| >= 3
    requires i < |UniqWith(s, equals)| && i < j < |s|
    ensures PairIndex(i, j, |s|) < |PairsAsWritten(s, get, equals)|
    ensures PairsAsWritten(s, get, equals)[PairIndex(i, j, |s|)] == (get(UniqWith(s, equals)[i]), get(s[j]))
  {
    var u := UniqWith(s, equals);
    assert PairsAsWritten(s, get, equals) == RowsUpTo(u, s, get, |u|);
    RowsAt(u, s, get, i, j);
  }

  /** In the rows of `outer` against `source`, the pair of `outer[i]` and
      `source[j]` sits at `PairIndex(i, j, |source|)`. */
  lemma RowsAt<T, K>(outer: seq<T>, source: seq<T>, get: T -> K, i: nat, j: nat)
    requires |outer| <= |source|
    requires i < |outer| && i < j < |source|
    ensures PairIndex(i, j, |source|) < |RowsUpTo(outer, source, get, |outer|)|
    ensures RowsUpTo(outer, source, get, |outer|)[PairIndex(i, j, |source|)] == (get(outer[i]), get(source[j]))
  {
    RowsUpToStart(outer, source, get, i);
    RowsUpToEntry(outer, source, get, i, j);
    RowsUpToKeeps(outer, source, get, i + 1, |outer|, PairIndex(i, j, |source|));
  }

  /** Intended pairs never pair an element with one `equals` to it. */
  lemma DedupedPairsAreDistinct<T, K>(s: seq<T>, get: T -> K, equals: (T, T) -> bool, i: nat, j: nat)
    requires i < j < |UniqWith(s, equals)|
    ensures var u := UniqWith(s, equals);
      && PairIndex(i, j, |u|) < |OrderedPairs(u, get)|
      && OrderedPairs(u, get)[PairIndex(i, j, |u|)] == (get(u[i]), get(u[j]))
      && !equals(u[j], u[i])
  {
    UniqWithDeduplicates(s, equals);
    OrderedPairsAt(UniqWith(s, equals), get, i, j);
  }

  function Identity(x: int): int { x }

  function IntEquals(a: int, b: int): bool { a == b }

  lemma UniqWithOneOne()
    ensures UniqWith([1, 1], IntEquals) == [1]
  {
    var one: seq<int> := [1];
    assert one[..0] == [];
    assert UniqWith(one, IntEquals) == one;
    var oneOne: seq<int> := [1, 1];
    assert oneOne[..1] == one;
    assert IncludesWith(IntEquals, 1, one);
  }

  lemma UniqWithOneOneTwo()
    ensures UniqWith([1, 1, 2], IntEquals) == [1, 2]
  {
    UniqWithOneOne();
    var one: seq<int> := [1];
    assert one[1..] == [];
    assert !IncludesWith(IntEquals, 2, one);
    var s: seq<int> := [1, 1, 2];
    assert s[..2] == [1, 1];
  }

  lemma RowsOfOneOneTwo()
    ensures RowsUpTo([1, 2], [1, 1, 2], Identity, 2) == [(1, 1), (1, 2), (2, 2)]
  {
    var s: seq<int> := [1, 1, 2];
    var u: seq<int> := [1, 2];
    assert s[1..] == [1, 2] && s[2..] == [2];
    var r1 := Row(Identity(u[0]), s[1..], Identity);
    assert r1 == [(1, 1), (1, 2)];
    var r2 := Row(Identity(u[1]), s[2..], Identity);
    assert r2 == [(2, 2)];
    assert RowsUpTo(u, s, Identity, 1) == [] + r1;
    assert RowsUpTo(u, s, Identity, 2) == RowsUpTo(u, s, Identity, 1) + r2;
  }

  lemma RowsOfOneTwo()
    ensures OrderedPairs([1, 2], Identity) == [(1, 2)]
  {
    var u: seq<int> := [1, 2];
    assert u[1..] == [2] && u[2..] == [];
    var q1 := Row(Identity(u[0]), u[1..], Identity);
    assert q1 == [(1, 2)];
    var q2 := Row(Identity(u[1]), u[2..], Identity);
    assert q2 == [];
    assert RowsUpTo(u, u, Identity, 1) == [] + q1;
    assert RowsUpTo(u, u, Identity, 2) == RowsUpTo(u, u, Identity, 1) + q2;
  }

  /**
   * The two-element path does not deduplicate: [1, 1] yields the self pair
   * (1, 1), where the deduplicated list [1] has no pair.
   */
  lemma TwoEqualElementsGiveSelfPair()
    ensures PairsAsWritten([1, 1], Identity, IntEquals) == [(1, 1)]
    ensures OrderedPairs(UniqWith([1, 1], IntEquals), Identity) == []
  {
    UniqWithOneOne();
    var one: seq<int> := [1];
    assert one[1..] == [];
    assert RowsUpTo(one, one, Identity, 1) == [] + Row(Identity(one[0]), one[1..], Identity);
  }

  /**
   * The discrepancy: [1, 1, 2] yields the self pairs (1, 1) and (2, 2) as
   * written, where the deduplicated list [1, 2] has the single pair (1, 2).
   */
  lemma DuplicateElementsGiveSelfPairs()
    ensures PairsAsWritten([1, 1, 2], Identity, IntEquals) == [(1, 1), (1, 2), (2, 2)]
    ensures OrderedPairs(UniqWith([1, 1, 2], IntEquals), Identity) == [(1, 2)]
  {
    UniqWithOneOneTwo();
    RowsOfOneOneTwo();
    RowsOfOneTwo();
  }
}
