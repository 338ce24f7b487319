/**
 * Ranking by similarity: Python's `list.sort(key=score, reverse=True)`, which
 * is stable, followed by the `[:top_k]` slice.
 */
module Ranking {
  import opened Strings

  /** An item with the similarity it was scored with. */
  datatype Scored<T> = Scored(score: real, item: T)

  predicate NonIncreasing<T>(xs: seq<Scored<T>>) {
    forall i, j | 0 <= i < j < |xs| :: xs[i].score >= xs[j].score
  }

  /** Insertion into a ranked list: `x` goes before the first element whose score does not exceed its own. */
  function InsertRanked<T>(x: Scored<T>, ys: seq<Scored<T>>): (r: seq<Scored<T>>)
    ensures |r| == |ys| + 1
    ensures multiset(r) == multiset(ys) + multiset{x}
    decreases |ys|
  {
    if ys == [] || x.score >= ys[0].score then [x] + ys
    else
      assert ys == [ys[0]] + ys[1..];
      [ys[0]] + InsertRanked(x, ys[1..])
  }

  /**
   * The stable descending sort, as a reference definition: the first element
   * is inserted into the ranked rest ahead of every element with an equal score.
   */
  function Ranked<T>(xs: seq<Scored<T>>): (r: seq<Scored<T>>)
    ensures |r| == |xs|
    ensures multiset(r) == multiset(xs)
    decreases |xs|
  {
    if xs == [] then [] else
      assert xs == [xs[0]] + xs[1..];
      InsertRanked(xs[0], Ranked(xs[1..]))
  }

  lemma {:induction false} InsertRankedKeepsOrder<T>(x: Scored<T>, ys: seq<Scored<T>>)
    requires NonIncreasing(ys)
    ensures NonIncreasing(InsertRanked(x, ys))
    decreases |ys|
  {
    if ys != [] && x.score < ys[0].score {
      var rest := InsertRanked(x, ys[1..]);
      InsertRankedKeepsOrder(x, ys[1..]);
      forall e | e in rest
        ensures ys[0].score >= e.score
      {
        assert e in multiset(rest);
        if e != x {
          assert e in multiset(ys[1..]);
        }
      }
    }
  }

  /** The ranking is in non-increasing order of score. */
  lemma {:induction false} RankedIsNonIncreasing<T>(xs: seq<Scored<T>>)
    ensures NonIncreasing(Ranked(xs))
    decreases |xs|
  {
    if xs != [] {
      RankedIsNonIncreasing(xs[1..]);
      InsertRankedKeepsOrder(xs[0], Ranked(xs[1..]));
    }
  }

  /** The items with their scores kept, mapped through `f`. */
  function MapItems<T, U>(f: T -> U, xs: seq<Scored<T>>): (r: seq<Scored<U>>)
    ensures |r| == |xs| && forall k | 0 <= k < |xs| :: r[k] == Scored(xs[k].score, f(xs[k].item))
  {
    seq(|xs|, k requires 0 <= k < |xs| => Scored(xs[k].score, f(xs[k].item)))
  }

  lemma MapItemsConcat<T, U>(f: T -> U, a: seq<Scored<T>>, b: seq<Scored<T>>)
    ensures MapItems(f, a + b) == MapItems(f, a) + MapItems(f, b)
  {
  }

  lemma {:induction false} InsertRankedMaps<T, U>(f: T -> U, x: Scored<T>, ys: seq<Scored<T>>)
    ensures InsertRanked(Scored(x.score, f(x.item)), MapItems(f, ys)) == MapItems(f, InsertRanked(x, ys))
    decreases |ys|
  {
    var m := MapItems(f, ys);
    var x' := Scored(x.score, f(x.item));
    if ys == [] || x.score >= ys[0].score {
      MapItemsConcat(f, [x], ys);
      assert MapItems(f, [x]) == [x'];
    } else {
      InsertRankedMaps(f, x, ys[1..]);
      assert ys == [ys[0]] + ys[1..];
      MapItemsConcat(f, [ys[0]], ys[1..]);
      MapItemsConcat(f, [ys[0]], InsertRanked(x, ys[1..]));
      assert MapItems(f, [ys[0]]) == [m[0]];
      assert m[1..] == MapItems(f, ys[1..]);
    }
  }

  /**
   * The ranking looks only at scores: ranking relabelled items is relabelling
   * the ranked items.
   */
  lemma {:induction false} RankedIgnoresItems<T, U>(f: T -> U, xs: seq<Scored<T>>)
    ensures Ranked(MapItems(f, xs)) == MapItems(f, Ranked(xs))
    decreases |xs|
  {
    if xs != [] {
      RankedIgnoresItems(f, xs[1..]);
      assert MapItems(f, xs)[1..] == MapItems(f, xs[1..]);
      InsertRankedMaps(f, xs[0], Ranked(xs[1..]));
    }
  }

  /** An item paired with the position its row had before ranking. */
  type Numbered<T> = Scored<(nat, T)>

  /** Equal scores appear in increasing order of their original positions. */
  predicate TiesInOrder<T>(xs: seq<Numbered<T>>) {
    forall i, j | 0 <= i < j < |xs| && xs[i].score == xs[j].score :: xs[i].item.0 < xs[j].item.0
  }

  lemma InsertRankedMembers<T>(x: Scored<T>, ys: seq<Scored<T>>)
    ensures forall e | e in InsertRanked(x, ys) :: e == x || e in ys
  {
    forall e | e in InsertRanked(x, ys)
      ensures e == x || e in ys
    {
      assert e in multiset(InsertRanked(x, ys));
    }
  }

  /** An item ahead of every later one with its score keeps ties in order when put in front. */
  lemma ConsKeepsTies<T>(y: Numbered<T>, ys: seq<Numbered<T>>)
    requires TiesInOrder(ys)
    requires forall e | e in ys && e.score == y.score :: y.item.0 < e.item.0
    ensures TiesInOrder([y] + ys)
  {
    var r := [y] + ys;
    forall i, j | 0 <= i < j < |r| && r[i].score == r[j].score
      ensures r[i].item.0 < r[j].item.0
    {
      if i == 0 {
        assert r[j] == ys[j - 1];
      } else {
        assert r[i] == ys[i - 1] && r[j] == ys[j - 1];
      }
    }
  }

  lemma {:induction false} InsertRankedKeepsTies<T>(x: Numbered<T>, ys: seq<Numbered<T>>)
    requires TiesInOrder(ys)
    requires forall e | e in ys :: x.item.0 < e.item.0
    ensures TiesInOrder(InsertRanked(x, ys))
    decreases |ys|
  {
    if ys != [] && x.score < ys[0].score {
      var tail := ys[1..];
      assert TiesInOrder(tail) by {
        forall i, j | 0 <= i < j < |tail| && tail[i].score == tail[j].score
          ensures tail[i].item.0 < tail[j].item.0
        {
          assert tail[i] == ys[i + 1] && tail[j] == ys[j + 1];
        }
      }
      InsertRankedKeepsTies(x, tail);
      var rest := InsertRanked(x, tail);
      InsertRankedMembers(x, tail);
      forall e | e in rest && e.score == ys[0].score
        ensures ys[0].item.0 < e.item.0
      {
        if e != x {
          var m :| 0 <= m < |tail| && tail[m] == e;
          assert ys[m + 1] == e;
        }
      }
      ConsKeepsTies(ys[0], rest);
    } else {
      ConsKeepsTies(x, ys);
    }
  }

  /** Ranking rows numbered in increasing order keeps equal scores in that order. */
  lemma {:induction false} RankedKeepsTiesInOrder<T>(xs: seq<Numbered<T>>)
    requires forall i, j | 0 <= i < j < |xs| :: xs[i].item.0 < xs[j].item.0
    ensures TiesInOrder(Ranked(xs))
    decreases |xs|
  {
    if xs != [] {
      RankedKeepsTiesInOrder(xs[1..]);
      forall e | e in Ranked(xs[1..])
        ensures xs[0].item.0 < e.item.0
      {
        assert e in multiset(Ranked(xs[1..]));
        assert e in multiset(xs[1..]);
        var m :| 0 <= m < |xs[1..]| && xs[1..][m] == e;
        assert xs[m + 1] == e;
      }
      InsertRankedKeepsTies(xs[0], Ranked(xs[1..]));
    }
  }

  /** Each item paired with its position. */
  function Number<T>(xs: seq<Scored<T>>): (r: seq<Numbered<T>>)
    ensures |r| == |xs|
    ensures forall k | 0 <= k < |xs| :: r[k] == Scored(xs[k].score, (k, xs[k].item))
  {
    seq(|xs|, k requires 0 <= k < |xs| => Scored(xs[k].score, (k as nat, xs[k].item)))
  }

  function Unnumbered<T>(p: (nat, T)): T {
    p.1
  }

  /**
   * Stability of the sort: ranking any list is ranking its numbered rows and
   * dropping the numbers, and in that ranking rows with equal scores keep
   * their original relative order.
   */
  lemma RankedIsStable<T>(xs: seq<Scored<T>>)
    ensures Ranked(xs) == MapItems(Unnumbered, Ranked(Number(xs)))
    ensures TiesInOrder(Ranked(Number(xs)))
  {
    var n := Number(xs);
    assert MapItems(Unnumbered, n) == xs;
    RankedIgnoresItems(Unnumbered, n);
    RankedKeepsTiesInOrder(n);
  }

  /** Sorting then `[:top_k]`. */
  function TopK<T>(xs: seq<Scored<T>>, topK: int): seq<Scored<T>> {
    PrefixSlice(Ranked(xs), topK)
  }

  /**
   * The top-k slice: `min(top_k, n)` items for a non-negative `top_k`, each a
   * ranked item in non-increasing order; every item left out scores no higher
   * than every item kept.
   */
  lemma TopKProperties<T>(xs: seq<Scored<T>>, topK: int)
    ensures var r := TopK(xs, topK);
      && (0 <= topK ==> |r| == if topK <= |xs| then topK else |xs|)
      && NonIncreasing(r)
      && r <= Ranked(xs)
      && multiset(r) <= multiset(xs)
      && forall i, j | 0 <= i < |r| <= j < |xs| :: r[i].score >= Ranked(xs)[j].score
  {
    var s := Ranked(xs);
    RankedIsNonIncreasing(xs);
    var r := PrefixSlice(s, topK);
    assert |s| == |xs| by {
      assert |multiset(s)| == |multiset(xs)|;
    }
    var rest := s[|r|..];
    assert s == r + rest;
    assert multiset(s) == multiset(r) + multiset(rest);
  }

  /** An item of the input that `[:top_k]` drops scores no higher than any item it keeps. */
  lemma TopKOutranks<T>(xs: seq<Scored<T>>, topK: int, y: Scored<T>, i: int)
    requires y in xs && 0 <= i < |TopK(xs, topK)|
    ensures y in TopK(xs, topK) || y.score <= TopK(xs, topK)[i].score
  {
    TopKProperties(xs, topK);
    var s := Ranked(xs);
    var r := TopK(xs, topK);
    assert y in multiset(s);
    var j :| 0 <= j < |s| && s[j] == y;
    if j < |r| {
      assert r[j] == y;
    }
  }
}
