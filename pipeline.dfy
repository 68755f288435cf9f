/**
 * The error-analysis wrapper: cross-validate, keep the worst predictions,
 * and sort them by the number of records (company mentions) that share
 * their sentence.
 *
 * The records are grouped by `trainText` when it is given (a non-empty
 * sequence, of any element type, such as the raw sentences behind
 * vectorised training data), by the training data otherwise.
 */
module Pipeline {
  import opened CrossValidate
  import opened Ranking
  import opened Grouping
  import opened Strata

  /** The number of texts the records are grouped by. */
  function GroupCount<X, T>(trainData: seq<X>, trainText: seq<T>): (r: nat)
    ensures trainText != [] ==> r == |trainText|
    ensures trainText == [] ==> r == |trainData|
  {
    if trainText != [] then |trainText| else |trainData|
  }

  /**
   * For each record index, the number of records sharing its sentence in
   * the texts the records are grouped by.
   */
  function GroupSizes<X(==), T(==)>(trainData: seq<X>, trainText: seq<T>): (r: map<nat, nat>)
    ensures forall i: nat :: i in r <==> i < GroupCount(trainData, trainText)
    ensures trainText != [] ==> r == SentenceSizes(trainText)
    ensures trainText == [] ==> r == SentenceSizes(trainData)
  {
    if trainText != [] then SentenceSizes(trainText) else SentenceSizes(trainData)
  }

  /**
   * What the wrapper needs: valid folds, a company for every grouped text,
   * and a company and a grouped text for each selected record (else the
   * source fails on a list index or a dictionary key).
   */
  predicate AnalysisInputs<X(==), T>(trainData: seq<X>, trainValues: seq<real>, trainComps: seq<string>,
                                     folds: seq<Fold>, predict: Predictor<X>, score: Scorer,
                                     trainText: seq<T>, numErrors: int)
  {
    && ValidFolds(folds, trainData, trainValues, predict)
    && |trainComps| >= GroupCount(trainData, trainText)
    && var top := TopScored(CrossValidation(folds, trainData, trainValues, predict, score), numErrors);
       forall k :: 0 <= k < |top| ==>
         top[k].index < |trainComps| && top[k].index < GroupCount(trainData, trainText)
  }

  /** Each selected error's index names a record of the grouped texts. */
  lemma TopErrorsHaveSentences<X, T>(trainData: seq<X>, trainValues: seq<real>, trainComps: seq<string>,
                                     folds: seq<Fold>, predict: Predictor<X>, score: Scorer,
                                     trainText: seq<T>, numErrors: int)
    requires AnalysisInputs(trainData, trainValues, trainComps, folds, predict, score, trainText, numErrors)
    ensures var errors := TopNErrors(CrossValidation(folds, trainData, trainValues, predict, score),
                                     trainData, trainValues, trainComps, numErrors);
            forall k :: 0 <= k < |errors| ==> errors[k].index in GroupSizes(trainData, trainText)
  {
  }

  /**
   * Filed by sentence size, each error sits under the number of records
   * that share its sentence, and every error is filed.
   */
  lemma DetailsBySentenceSize<X, T>(errors: seq<ErrorRecord<X>>, text: seq<T>)
    requires forall k :: 0 <= k < |errors| ==> errors[k].index in SentenceSizes(text)
    ensures forall k, e :: k in Stratify(errors, SentenceSizes(text)) && e in Stratify(errors, SentenceSizes(text))[k] ==>
              e.index < |text| && |IndicesOf(text, text[e.index])| == k
    ensures forall k :: 0 <= k < |errors| ==>
              var c := |IndicesOf(text, text[errors[k].index])|;
              c in Stratify(errors, SentenceSizes(text)) && errors[k] in Stratify(errors, SentenceSizes(text))[c]
  {
    StratifyIsFilter(errors, SentenceSizes(text));
  }

  /**
   * `error_analysis`: the worst `numErrors` cross-validated predictions,
   * filed under the number of records that share their sentence (in
   * `trainText` when it is given, in the training data otherwise), and the
   * number of errors under each count.
   */
  method ErrorAnalysis<X(==), T(==)>(trainData: seq<X>, trainValues: seq<real>, trainComps: seq<string>,
                                     folds: seq<Fold>, predict: Predictor<X>, score: Scorer,
                                     trainText: seq<T>, numErrors: int)
    returns (errorDetails: map<nat, seq<ErrorRecord<X>>>, errorDistribution: map<nat, nat>)
    requires AnalysisInputs(trainData, trainValues, trainComps, folds, predict, score, trainText, numErrors)
    ensures var cv := CrossValidation(folds, trainData, trainValues, predict, score);
            errorDetails == Stratify(TopNErrors(cv, trainData, trainValues, trainComps, numErrors),
                                     GroupSizes(trainData, trainText))
    ensures trainText != [] ==>
              forall k, e :: k in errorDetails && e in errorDetails[k] ==>
                e.index < |trainText| && |IndicesOf(trainText, trainText[e.index])| == k
    ensures trainText == [] ==>
              forall k, e :: k in errorDetails && e in errorDetails[k] ==>
                e.index < |trainData| && |IndicesOf(trainData, trainData[e.index])| == k
    ensures errorDistribution == Distribution(errorDetails)
    ensures Total(errorDistribution)
            == SliceEnd(numErrors, |CrossValidation(folds, trainData, trainValues, predict, score)|)
    ensures ExactPredictions(folds, trainData, trainValues, predict) && TestsPartition(folds, |trainData|)
            ==> Total(errorDistribution) == SliceEnd(numErrors, |trainData|)
  {
    var compcountId: map<nat, seq<seq<nat>>>, countOrder: seq<nat>;
    if trainText != [] {
      compcountId, countOrder := Comps2Sent(trainText, trainComps);
      LookupOfCompanyGroups(trainText, countOrder);
    } else {
      compcountId, countOrder := Comps2Sent(trainData, trainComps);
      LookupOfCompanyGroups(trainData, countOrder);
    }
    var errorResults := ErrorCrossValidate(trainData, trainValues, folds, predict, score);
    var topErrors := TopNErrors(errorResults, trainData, trainValues, trainComps, numErrors);
    TopErrorsHaveSentences(trainData, trainValues, trainComps, folds, predict, score, trainText, numErrors);
    errorDetails := SentTypeErrors(topErrors, compcountId, countOrder);
    errorDistribution := Distribution(errorDetails);
    if trainText != [] {
      DetailsBySentenceSize(topErrors, trainText);
    } else {
      DetailsBySentenceSize(topErrors, trainData);
    }
    StratifyTotal(topErrors, GroupSizes(trainData, trainText));
    if ExactPredictions(folds, trainData, trainValues, predict) && TestsPartition(folds, |trainData|) {
      OneRecordPerExample(folds, trainData, trainValues, predict, score);
    }
  }
}
