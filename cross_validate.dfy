/**
 * K-fold cross-validation that scores every held-out example on its own.
 *
 * The folds are an input (their construction, and its shuffling, belong to
 * the fold generator). The model is a function from a training set and the
 * held-out features to predictions, standing for `fit` followed by
 * `predict`; the score function is applied to single-element sequences.
 */
module CrossValidate {

  /** One train/test split, as index sequences into the data. */
  datatype Fold = Fold(train: seq<nat>, test: seq<nat>)

  /** `(index, predicted value, score)` for one held-out example. */
  datatype ScoredPrediction = ScoredPrediction(index: nat, predicted: real, score: real)

  /** `fit(trainX, trainY)` then `predict(testX)`. */
  type Predictor<!X> = (seq<X>, seq<real>, seq<X>) -> seq<real>

  /** The score of one prediction, e.g. mean absolute error. */
  type Scorer = (seq<real>, seq<real>) -> real

  predicate AllBelow(idx: seq<nat>, m: nat) {
    forall k :: 0 <= k < |idx| ==> idx[k] < m
  }

  /** `array[idx]` with an index array: the elements at the given indices. */
  function Select<A>(s: seq<A>, idx: seq<nat>): (r: seq<A>)
    requires AllBelow(idx, |s|)
    ensures |r| == |idx|
    ensures forall k :: 0 <= k < |idx| ==> r[k] == s[idx[k]]
  {
    seq(|idx|, k requires 0 <= k < |idx| => s[idx[k]])
  }

  predicate FoldInRange(f: Fold, m: nat) {
    AllBelow(f.train, m) && AllBelow(f.test, m)
  }

  /** The model's predictions for the held-out part of one fold. */
  function FoldPredictions<X>(f: Fold, data: seq<X>, values: seq<real>, predict: Predictor<X>): seq<real>
    requires |data| == |values| && FoldInRange(f, |data|)
  {
    predict(Select(data, f.train), Select(values, f.train), Select(data, f.test))
  }

  /**
   * What the source needs of its inputs: data and values of one length,
   * fold indices inside the data, and no fold whose model returns more
   * predictions than it has test indices (that would index past the end
   * of the test index array).
   */
  predicate ValidFolds<X>(folds: seq<Fold>, data: seq<X>, values: seq<real>, predict: Predictor<X>) {
    && |data| == |values|
    && (forall k :: 0 <= k < |folds| ==> FoldInRange(folds[k], |data|))
    && (forall k :: 0 <= k < |folds| ==> |FoldPredictions(folds[k], data, values, predict)| <= |folds[k].test|)
  }

  /** The model returns exactly one prediction per held-out example. */
  predicate ExactPredictions<X>(folds: seq<Fold>, data: seq<X>, values: seq<real>, predict: Predictor<X>)
    requires ValidFolds(folds, data, values, predict)
  {
    forall k :: 0 <= k < |folds| ==> |FoldPredictions(folds[k], data, values, predict)| == |folds[k].test|
  }

  /** The records one fold contributes, in the order of its test indices. */
  function FoldRecords<X>(f: Fold, data: seq<X>, values: seq<real>, predict: Predictor<X>, score: Scorer)
    : (r: seq<ScoredPrediction>)
    requires |data| == |values| && FoldInRange(f, |data|)
    requires |FoldPredictions(f, data, values, predict)| <= |f.test|
    ensures |r| == |FoldPredictions(f, data, values, predict)|
    ensures forall i :: 0 <= i < |r| ==>
              var p := FoldPredictions(f, data, values, predict)[i];
              r[i] == ScoredPrediction(f.test[i], p, score([p], [values[f.test[i]]]))
  {
    var predicted := FoldPredictions(f, data, values, predict);
    var realValues := Select(values, f.test);
    seq(|predicted|, i requires 0 <= i < |predicted| =>
      ScoredPrediction(f.test[i], predicted[i], score([predicted[i]], [realValues[i]])))
  }

  lemma PrefixValid<X>(folds: seq<Fold>, k: nat, data: seq<X>, values: seq<real>, predict: Predictor<X>)
    requires ValidFolds(folds, data, values, predict) && k <= |folds|
    ensures ValidFolds(folds[..k], data, values, predict)
  {
    assert forall j :: 0 <= j < k ==> folds[..k][j] == folds[j];
  }

  /** The records of all folds, fold after fold. */
  function CrossValidation<X>(folds: seq<Fold>, data: seq<X>, values: seq<real>, predict: Predictor<X>, score: Scorer)
    : (r: seq<ScoredPrediction>)
    requires ValidFolds(folds, data, values, predict)
    ensures forall p :: 0 <= p < |r| ==> r[p].index < |data|
    decreases |folds|
  {
    if folds == [] then []
    else
      var n := |folds| - 1;
      PrefixValid(folds, n, data, values, predict);
      CrossValidation(folds[..n], data, values, predict, score) + FoldRecords(folds[n], data, values, predict, score)
  }

  /** `error_cross_validate`. */
  method ErrorCrossValidate<X>(trainData: seq<X>, trainValues: seq<real>, folds: seq<Fold>,
                               predict: Predictor<X>, score: Scorer)
    returns (results: seq<ScoredPrediction>)
    requires ValidFolds(folds, trainData, trainValues, predict)
    ensures results == CrossValidation(folds, trainData, trainValues, predict, score)
    ensures forall r :: r in results ==> r.index < |trainData|
  {
    results := [];
    for k := 0 to |folds|
      invariant ValidFolds(folds[..k], trainData, trainValues, predict)
      invariant results == CrossValidation(folds[..k], trainData, trainValues, predict, score)
    {
      var fold := folds[k];
      var predictedValues := FoldPredictions(fold, trainData, trainValues, predict);
      var realValues := Select(trainValues, fold.test);
      ghost var records := FoldRecords(fold, trainData, trainValues, predict, score);
      for i := 0 to |predictedValues|
        invariant results == CrossValidation(folds[..k], trainData, trainValues, predict, score) + records[..i]
      {
        var predValue := [predictedValues[i]];
        var realValue := [realValues[i]];
        results := results + [ScoredPrediction(fold.test[i], predValue[0], score(predValue, realValue))];
      }
      assert folds[..k + 1][..k] == folds[..k];
      PrefixValid(folds, k + 1, trainData, trainValues, predict);
    }
    assert folds[..|folds|] == folds;
  }

  /** The test indices of all folds, fold after fold. */
  function AllTests(folds: seq<Fold>): seq<nat>
    decreases |folds|
  {
    if folds == [] then [] else AllTests(folds[..|folds| - 1]) + folds[|folds| - 1].test
  }

  /** The indices of the records, in order. */
  function Indices(rs: seq<ScoredPrediction>): (r: seq<nat>)
    ensures |r| == |rs| && forall p :: 0 <= p < |rs| ==> r[p] == rs[p].index
  {
    seq(|rs|, p requires 0 <= p < |rs| => rs[p].index)
  }

  function Range(m: nat): (r: seq<nat>)
    ensures |r| == m && forall i :: 0 <= i < m ==> r[i] == i
  {
    seq(m, i requires 0 <= i < m => i)
  }

  /** The folds' test index sequences together hold each of 0..m-1 exactly once. */
  predicate TestsPartition(folds: seq<Fold>, m: nat) {
    multiset(AllTests(folds)) == multiset(Range(m))
  }

  /**
   * When the model predicts every held-out example, the records carry the
   * test indices of the folds, in fold order.
   */
  lemma {:induction false} CrossValidationFollowsFolds<X>(folds: seq<Fold>, data: seq<X>, values: seq<real>,
                                                         predict: Predictor<X>, score: Scorer)
    requires ValidFolds(folds, data, values, predict)
    requires ExactPredictions(folds, data, values, predict)
    ensures Indices(CrossValidation(folds, data, values, predict, score)) == AllTests(folds)
    decreases |folds|
  {
    if folds != [] {
      var n := |folds| - 1;
      PrefixValid(folds, n, data, values, predict);
      assert forall j :: 0 <= j < n ==> folds[..n][j] == folds[j];
      CrossValidationFollowsFolds(folds[..n], data, values, predict, score);
      var front := CrossValidation(folds[..n], data, values, predict, score);
      var last := FoldRecords(folds[n], data, values, predict, score);
      assert Indices(front + last) == Indices(front) + Indices(last);
      assert Indices(last) == folds[n].test;
    }
  }

  lemma {:induction false} RangeCountsOnce(m: nat, i: nat)
    ensures multiset(Range(m))[i] == if i < m then 1 else 0
  {
    if m > 0 {
      assert Range(m) == Range(m - 1) + [m - 1];
      RangeCountsOnce(m - 1, i);
    }
  }

  /**
   * With folds whose test sets partition 0..m-1 and a model that predicts
   * every held-out example, there are exactly m records and every index
   * 0..m-1 is the index of exactly one of them.
   */
  lemma OneRecordPerExample<X>(folds: seq<Fold>, data: seq<X>, values: seq<real>,
                               predict: Predictor<X>, score: Scorer)
    requires ValidFolds(folds, data, values, predict)
    requires ExactPredictions(folds, data, values, predict)
    requires TestsPartition(folds, |data|)
    ensures |CrossValidation(folds, data, values, predict, score)| == |data|
    ensures forall i :: 0 <= i < |data| ==>
              multiset(Indices(CrossValidation(folds, data, values, predict, score)))[i] == 1
  {
    var cv := CrossValidation(folds, data, values, predict, score);
    CrossValidationFollowsFolds(folds, data, values, predict, score);
    assert |cv| == |Indices(cv)| == |multiset(AllTests(folds))| == |multiset(Range(|data|))|;
    forall i | 0 <= i < |data| ensures multiset(Indices(cv))[i] == 1 {
      RangeCountsOnce(|data|, i);
    }
  }
}
