/**
 * Selecting the worst predictions: a stable sort of the scored records by
 * descending score, a Python-style prefix slice, and the resolution of each
 * kept record's index into the text, company and true value it stands for.
 */
module Ranking {
  import opened CrossValidate

  /** The dictionary built for one selected error. */
  datatype ErrorRecord<X> = ErrorRecord(sentence: X, company: string, trueValue: real, predValue: real, index: nat)

  /** Scores never increase from left to right. */
  predicate Descending(s: seq<ScoredPrediction>) {
    forall p, q :: 0 <= p < q < |s| ==> s[p].score >= s[q].score
  }

  /**
   * Places `x` in front of the first record that does not score strictly
   * higher, so that `x` precedes the records of equal score already there.
   */
  function Insert(x: ScoredPrediction, s: seq<ScoredPrediction>): (r: seq<ScoredPrediction>)
    ensures |r| == |s| + 1
  {
    if s == [] || s[0].score <= x.score then [x] + s else [s[0]] + Insert(x, s[1..])
  }

  /** `sorted(rs, key=score, reverse=True)`: a stable descending sort. */
  function SortByScore(rs: seq<ScoredPrediction>): (r: seq<ScoredPrediction>)
    ensures |r| == |rs|
  {
    if rs == [] then [] else Insert(rs[0], SortByScore(rs[1..]))
  }

  /** The records of score `v`, in their order. */
  function WithScore(s: seq<ScoredPrediction>, v: real): seq<ScoredPrediction>
  {
    if s == [] then [] else (if s[0].score == v then [s[0]] else []) + WithScore(s[1..], v)
  }

  lemma {:induction false} InsertPermutes(x: ScoredPrediction, s: seq<ScoredPrediction>)
    ensures multiset(Insert(x, s)) == multiset(s) + multiset{x}
  {
    if s != [] && s[0].score > x.score {
      InsertPermutes(x, s[1..]);
      assert s == [s[0]] + s[1..];
    }
  }

  lemma {:induction false} InsertKeepsDescending(x: ScoredPrediction, s: seq<ScoredPrediction>)
    requires Descending(s)
    ensures Descending(Insert(x, s))
  {
    if s != [] && s[0].score > x.score {
      var t := Insert(x, s[1..]);
      InsertKeepsDescending(x, s[1..]);
      InsertPermutes(x, s[1..]);
      forall q | 0 <= q < |t| ensures t[q].score <= s[0].score {
        assert t[q] in multiset(t);
        if t[q] != x {
          assert t[q] in multiset(s[1..]);
          var r :| 0 <= r < |s[1..]| && s[1..][r] == t[q];
          assert s[r + 1] == t[q];
        }
      }
      assert Insert(x, s) == [s[0]] + t;
    }
  }

  /** `WithScore` of a sequence with a given head. */
  lemma WithScoreCons(y: ScoredPrediction, t: seq<ScoredPrediction>, v: real)
    ensures WithScore([y] + t, v) == (if y.score == v then [y] else []) + WithScore(t, v)
  {
    assert ([y] + t)[1..] == t;
  }

  lemma {:induction false} InsertIsStable(x: ScoredPrediction, s: seq<ScoredPrediction>, v: real)
    ensures WithScore(Insert(x, s), v) == (if x.score == v then [x] else []) + WithScore(s, v)
  {
    if s == [] || s[0].score <= x.score {
      WithScoreCons(x, s, v);
    } else {
      var t := Insert(x, s[1..]);
      assert Insert(x, s) == [s[0]] + t;
      assert s == [s[0]] + s[1..];
      InsertIsStable(x, s[1..], v);
      WithScoreCons(s[0], t, v);
      WithScoreCons(s[0], s[1..], v);
      if s[0].score == v {
        assert x.score != v;
        assert WithScore(t, v) == WithScore(s[1..], v);
      }
    }
  }

  /**
   * The sort orders by descending score, is a permutation of its input, and
   * is stable: the records of any one score keep their input order.
   */
  lemma SortByScoreSpec(rs: seq<ScoredPrediction>)
    ensures Descending(SortByScore(rs))
    ensures multiset(SortByScore(rs)) == multiset(rs)
    ensures forall v :: WithScore(SortByScore(rs), v) == WithScore(rs, v)
  {
    SortByScoreOrders(rs);
    forall v ensures WithScore(SortByScore(rs), v) == WithScore(rs, v) {
      SortByScoreIsStable(rs, v);
    }
  }

  lemma {:induction false} SortByScoreOrders(rs: seq<ScoredPrediction>)
    ensures Descending(SortByScore(rs))
    ensures multiset(SortByScore(rs)) == multiset(rs)
  {
    if rs != [] {
      SortByScoreOrders(rs[1..]);
      InsertPermutes(rs[0], SortByScore(rs[1..]));
      InsertKeepsDescending(rs[0], SortByScore(rs[1..]));
      assert rs == [rs[0]] + rs[1..];
    }
  }

  lemma {:induction false} SortByScoreIsStable(rs: seq<ScoredPrediction>, v: real)
    ensures WithScore(SortByScore(rs), v) == WithScore(rs, v)
  {
    if rs != [] {
      SortByScoreIsStable(rs[1..], v);
      InsertIsStable(rs[0], SortByScore(rs[1..]), v);
    }
  }

  /** The end of the Python slice `s[:n]` on a sequence of length `len`. */
  function SliceEnd(n: int, len: nat): (e: nat)
    ensures e <= len
    ensures n >= 0 ==> e == if n < len then n else len
    ensures n < 0 ==> e == if len + n > 0 then len + n else 0
  {
    if n >= 0 then (if n < len then n else len)
    else if len + n > 0 then len + n else 0
  }

  /** The first `n` records of the sorted list, with Python slice semantics. */
  function TopScored(rs: seq<ScoredPrediction>, n: int): (r: seq<ScoredPrediction>)
    ensures forall k :: 0 <= k < |r| ==> r[k] in rs
  {
    var sorted := SortByScore(rs);
    SortByScoreOrders(rs);
    assert forall k :: 0 <= k < |sorted| ==> sorted[k] in multiset(rs);
    sorted[..SliceEnd(n, |rs|)]
  }

  lemma {:induction false} WithScorePrefix(s: seq<ScoredPrediction>, e: nat, v: real)
    requires e <= |s|
    ensures WithScore(s[..e], v) <= WithScore(s, v)
  {
    if e > 0 {
      WithScorePrefix(s[1..], e - 1, v);
      assert s[..e][1..] == s[1..][..e - 1];
    }
  }

  /**
   * The selection holds the `SliceEnd(n, |rs|)` highest-scoring records in
   * descending order; every record left out scores no higher than any kept
   * one; and among records of equal score the earliest in the input are
   * kept, in input order.
   */
  lemma TopScoredSpec(rs: seq<ScoredPrediction>, n: int)
    ensures |TopScored(rs, n)| == SliceEnd(n, |rs|)
    ensures Descending(TopScored(rs, n))
    ensures multiset(TopScored(rs, n)) <= multiset(rs)
    ensures forall a, b :: a in TopScored(rs, n) && b in multiset(rs) - multiset(TopScored(rs, n))
              ==> b.score <= a.score
    ensures forall v :: WithScore(TopScored(rs, n), v) <= WithScore(rs, v)
  {
    SortedPrefixSpec(rs, SliceEnd(n, |rs|));
  }

  /** The properties of `TopScored` for a prefix of any length of the sorted records. */
  lemma SortedPrefixSpec(rs: seq<ScoredPrediction>, e: nat)
    requires e <= |rs|
    ensures Descending(SortByScore(rs)[..e])
    ensures multiset(SortByScore(rs)[..e]) <= multiset(rs)
    ensures forall a, b :: a in SortByScore(rs)[..e] && b in multiset(rs) - multiset(SortByScore(rs)[..e])
              ==> b.score <= a.score
    ensures forall v :: WithScore(SortByScore(rs)[..e], v) <= WithScore(rs, v)
  {
    SortedPrefixDescending(rs, e);
    SortedPrefixOrder(rs, e);
    forall v ensures WithScore(SortByScore(rs)[..e], v) <= WithScore(rs, v) {
      SortByScoreIsStable(rs, v);
      WithScorePrefix(SortByScore(rs), e, v);
    }
  }

  lemma SortedPrefixDescending(rs: seq<ScoredPrediction>, e: nat)
    requires e <= |rs|
    ensures Descending(SortByScore(rs)[..e])
  {
    SortByScoreOrders(rs);
    SplitDescending(SortByScore(rs), e);
  }

  lemma SortedPrefixOrder(rs: seq<ScoredPrediction>, e: nat)
    requires e <= |rs|
    ensures multiset(SortByScore(rs)[..e]) <= multiset(rs)
    ensures forall a, b :: a in SortByScore(rs)[..e] && b in multiset(rs) - multiset(SortByScore(rs)[..e])
              ==> b.score <= a.score
  {
    var sorted := SortByScore(rs);
    SortByScoreOrders(rs);
    SplitDescending(sorted, e);
    assert multiset(rs) - multiset(sorted[..e]) == multiset(sorted[e..]);
  }

  /**
   * Cutting a descending sequence in two: the front is descending and
   * nothing in the back scores above anything in the front.
   */
  lemma SplitDescending(s: seq<ScoredPrediction>, e: nat)
    requires Descending(s) && e <= |s|
    ensures Descending(s[..e])
    ensures multiset(s) == multiset(s[..e]) + multiset(s[e..])
    ensures multiset(s) - multiset(s[..e]) == multiset(s[e..])
    ensures forall a, b :: a in s[..e] && b in multiset(s[e..]) ==> b.score <= a.score
  {
    assert s == s[..e] + s[e..];
    assert multiset(s) == multiset(s[..e]) + multiset(s[e..]);
    forall a, b | a in s[..e] && b in multiset(s[e..]) ensures b.score <= a.score {
      var p :| 0 <= p < e && s[..e][p] == a;
      var q :| 0 <= q < |s| - e && s[e..][q] == b;
      assert s[p] == a && s[e + q] == b;
    }
  }

  /** Every kept record's index can be looked up in the three sequences. */
  predicate Resolvable(top: seq<ScoredPrediction>, dataLen: nat, valuesLen: nat, companiesLen: nat) {
    forall k :: 0 <= k < |top| ==>
      top[k].index < dataLen && top[k].index < valuesLen && top[k].index < companiesLen
  }

  /**
   * `top_n_errors`: the `n` worst-scored records, each resolved into its
   * sentence, company and true value; predicted value and index are
   * copied from the record.
   */
  function TopNErrors<X>(errorRes: seq<ScoredPrediction>, trainData: seq<X>, trainValues: seq<real>,
                         companies: seq<string>, n: int): (r: seq<ErrorRecord<X>>)
    requires Resolvable(TopScored(errorRes, n), |trainData|, |trainValues|, |companies|)
    ensures |r| == SliceEnd(n, |errorRes|)
    ensures forall k :: 0 <= k < |r| ==>
              var t := TopScored(errorRes, n)[k];
              && r[k].index == t.index && r[k].predValue == t.predicted
              && r[k].sentence == trainData[t.index] && r[k].company == companies[t.index]
              && r[k].trueValue == trainValues[t.index]
  {
    var topErrors := TopScored(errorRes, n);
    TopScoredSpec(errorRes, n);
    seq(|topErrors|, k requires 0 <= k < |topErrors| =>
      var t := topErrors[k];
      ErrorRecord(trainData[t.index], companies[t.index], trainValues[t.index], t.predicted, t.index))
  }

  /** The worked example: the two highest of three scores, highest first. */
  lemma TopTwoOfThree()
    ensures var rs := [ScoredPrediction(0, 5.0, 1.0), ScoredPrediction(1, 2.0, 3.0), ScoredPrediction(2, 9.0, 2.0)];
            TopScored(rs, 2) == [rs[1], rs[2]]
  {
  }
}
