/**
 * Ordering labelled scores the way the source does it:
 * `Object.entries(scores).sort(([, a], [, b]) => b - a)`. JavaScript's
 * `Array.prototype.sort` is stable, so the entries end up in descending
 * score order and entries with equal scores keep their original order.
 * The model is an insertion sort with exactly that comparison.
 */
module Ranking {

  /** Scores in non-increasing order. */
  ghost predicate NonIncreasing<K>(s: seq<(K, real)>) {
    forall i, j :: 0 <= i < j < |s| ==> s[i].1 >= s[j].1
  }

  /** The entries of `s` whose score is `v`, in their order in `s`. */
  function WithScore<K>(s: seq<(K, real)>, v: real): (r: seq<(K, real)>)
    ensures |r| <= |s|
    ensures forall i :: 0 <= i < |r| ==> r[i].1 == v
    decreases |s|
  {
    if s == [] then []
    else if s[0].1 == v then [s[0]] + WithScore(s[1..], v)
    else WithScore(s[1..], v)
  }

  lemma {:induction false} WithScoreAppend<K>(a: seq<(K, real)>, b: seq<(K, real)>, v: real)
    ensures WithScore(a + b, v) == WithScore(a, v) + WithScore(b, v)
    decreases |a|
  {
    if a == [] {
      assert a + b == b;
    } else {
      assert (a + b)[0] == a[0];
      assert (a + b)[1..] == a[1..] + b;
      WithScoreAppend(a[1..], b, v);
    }
  }

  /**
   * Inserts `x` before the first entry whose score is not greater than
   * its own: `x` joins the entries it ties with at their front.
   */
  function Insert<K(==)>(x: (K, real), t: seq<(K, real)>): (r: seq<(K, real)>)
    ensures |r| == |t| + 1
    ensures multiset(r) == multiset(t) + multiset{x}
    decreases |t|
  {
    if t == [] || x.1 >= t[0].1 then
      [x] + t
    else
      assert t == [t[0]] + t[1..];
      [t[0]] + Insert(x, t[1..])
  }

  lemma {:induction false} InsertNonIncreasing<K>(x: (K, real), t: seq<(K, real)>)
    requires NonIncreasing(t)
    ensures NonIncreasing(Insert(x, t))
    decreases |t|
  {
    if t != [] && x.1 < t[0].1 {
      var tail := Insert(x, t[1..]);
      InsertNonIncreasing(x, t[1..]);
      forall i | 0 <= i < |tail| ensures tail[i].1 <= t[0].1 {
        assert tail[i] in multiset(tail);
        assert tail[i] == x || tail[i] in multiset(t[1..]);
        if tail[i] != x {
          var j :| 0 <= j < |t[1..]| && t[1..][j] == tail[i];
          assert t[j + 1] == tail[i];
        }
      }
    }
  }

  lemma {:induction false} InsertWithScore<K>(x: (K, real), t: seq<(K, real)>, v: real)
    ensures WithScore(Insert(x, t), v) == if x.1 == v then [x] + WithScore(t, v) else WithScore(t, v)
    decreases |t|
  {
    if t == [] || x.1 >= t[0].1 {
      assert ([x] + t)[1..] == t;
    } else {
      InsertWithScore(x, t[1..], v);
      var r := [t[0]] + Insert(x, t[1..]);
      assert r[1..] == Insert(x, t[1..]);
    }
  }

  /** The stable descending sort of the entries. */
  function SortDesc<K(==)>(s: seq<(K, real)>): (r: seq<(K, real)>)
    ensures |r| == |s|
    ensures multiset(r) == multiset(s)
    ensures NonIncreasing(r)
    decreases |s|
  {
    if s == [] then
      []
    else
      var t := SortDesc(s[1..]);
      assert s == [s[0]] + s[1..];
      InsertNonIncreasing(s[0], t);
      Insert(s[0], t)
  }

  /** The sort is stable: for every score, the entries with it keep their relative order. */
  lemma {:induction false} SortDescStable<K>(s: seq<(K, real)>, v: real)
    ensures WithScore(SortDesc(s), v) == WithScore(s, v)
    decreases |s|
  {
    if s != [] {
      SortDescStable(s[1..], v);
      InsertWithScore(s[0], SortDesc(s[1..]), v);
      assert s == [s[0]] + s[1..];
    }
  }

  /** The position of the first entry with the largest score: an independent description of the sort's head. */
  function FirstMaxIndex<K>(s: seq<(K, real)>): (k: nat)
    requires |s| > 0
    ensures k < |s|
    ensures forall j :: 0 <= j < |s| ==> s[j].1 <= s[k].1
    ensures forall j :: 0 <= j < k ==> s[j].1 < s[k].1
    decreases |s|
  {
    if |s| == 1 then
      0
    else
      var k := FirstMaxIndex(s[1..]);
      if s[0].1 >= s[k + 1].1 then 0 else k + 1
  }

  /** The head of the stable descending sort is the first entry with the largest score. */
  lemma {:induction false} SortHeadIsFirstMax<K>(s: seq<(K, real)>)
    requires |s| > 0
    ensures SortDesc(s)[0] == s[FirstMaxIndex(s)]
    decreases |s|
  {
    if |s| > 1 {
      SortHeadIsFirstMax(s[1..]);
      assert s[1..][FirstMaxIndex(s[1..])] == s[FirstMaxIndex(s[1..]) + 1];
    }
  }

  /** A prefix keeps, for every score, a prefix of the entries with that score. */
  lemma WithScorePrefix<K>(s: seq<(K, real)>, n: nat, v: real)
    requires n <= |s|
    ensures WithScore(s[..n], v) <= WithScore(s, v)
  {
    assert s == s[..n] + s[n..];
    WithScoreAppend(s[..n], s[n..], v);
  }

  /** The entries with every key passed through `f`, scores untouched. */
  function Relabel<K, L>(s: seq<(K, real)>, f: K -> L): (r: seq<(L, real)>)
    ensures |r| == |s|
    ensures forall i :: 0 <= i < |s| ==> r[i] == (f(s[i].0), s[i].1)
    decreases |s|
  {
    if s == [] then [] else [(f(s[0].0), s[0].1)] + Relabel(s[1..], f)
  }

  /** Relabelling a sequence with a given head. */
  lemma RelabelCons<K, L>(x: (K, real), t: seq<(K, real)>, f: K -> L)
    ensures Relabel([x] + t, f) == [(f(x.0), x.1)] + Relabel(t, f)
  {
    assert ([x] + t)[1..] == t;
  }

  /** Relabelling commutes with one insertion. */
  lemma {:induction false} InsertRelabel<K, L>(x: (K, real), t: seq<(K, real)>, f: K -> L)
    ensures Relabel(Insert(x, t), f) == Insert((f(x.0), x.1), Relabel(t, f))
    decreases |t|
  {
    var r := Relabel(t, f);
    if t != [] && x.1 < t[0].1 {
      InsertRelabel(x, t[1..], f);
      assert r[1..] == Relabel(t[1..], f);
      RelabelCons(t[0], Insert(x, t[1..]), f);
    } else {
      RelabelCons(x, t, f);
    }
  }

  /** The sort only looks at scores, so renaming the keys commutes with it. */
  lemma {:induction false} SortDescRelabel<K, L>(s: seq<(K, real)>, f: K -> L)
    ensures Relabel(SortDesc(s), f) == SortDesc(Relabel(s, f))
    decreases |s|
  {
    if s != [] {
      SortDescRelabel(s[1..], f);
      InsertRelabel(s[0], SortDesc(s[1..]), f);
      var r := Relabel(s, f);
      assert r[1..] == Relabel(s[1..], f);
    }
  }

  /** `sort(...).slice(0, k)`: the first `k` entries of the stable descending sort. */
  function TopK<K(==)>(s: seq<(K, real)>, k: nat): (top: seq<(K, real)>)
    ensures |top| == if |s| < k then |s| else k
    ensures NonIncreasing(top)
    ensures multiset(top) <= multiset(s)
  {
    var sorted := SortDesc(s);
    var n := if |s| < k then |s| else k;
    assert sorted == sorted[..n] + sorted[n..];
    sorted[..n]
  }

  /**
   * `TopK` is a true top-k: what is left out scores no higher than anything
   * kept, nothing is invented or lost, and equal scores keep their order.
   */
  lemma TopKIsTop<K>(s: seq<(K, real)>, k: nat)
    ensures var top := TopK(s, k);
      var rest := SortDesc(s)[|top|..];
      && multiset(top) + multiset(rest) == multiset(s)
      && (forall i, j :: 0 <= i < |top| && 0 <= j < |rest| ==> rest[j].1 <= top[i].1)
      && (forall v :: WithScore(top, v) <= WithScore(s, v))
  {
    var sorted := SortDesc(s);
    var n := |TopK(s, k)|;
    assert TopK(s, k) == sorted[..n];
    PrefixSplit(sorted, n);
    PrefixDominates(sorted, n);
    forall v ensures WithScore(sorted[..n], v) <= WithScore(s, v) {
      WithScorePrefix(sorted, n, v);
      SortDescStable(s, v);
    }
  }

  /** Cutting a sequence in two loses and invents nothing. */
  lemma PrefixSplit<K>(s: seq<(K, real)>, n: nat)
    requires n <= |s|
    ensures multiset(s[..n]) + multiset(s[n..]) == multiset(s)
  {
    assert s == s[..n] + s[n..];
  }

  /** In a non-increasing sequence nothing after the cut scores above anything before it. */
  lemma PrefixDominates<K>(s: seq<(K, real)>, n: nat)
    requires n <= |s| && NonIncreasing(s)
    ensures forall i, j :: 0 <= i < n && 0 <= j < |s| - n ==> s[n..][j].1 <= s[..n][i].1
  {
    forall i, j | 0 <= i < n && 0 <= j < |s| - n ensures s[n..][j].1 <= s[..n][i].1 {
      assert s[n..][j] == s[n + j] && s[..n][i] == s[i];
    }
  }
}
