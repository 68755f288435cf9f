# Error analysis and n-gram helpers, modelled in Dafny

This project models the error-analysis bookkeeping of `helper.py`, a
helper module for a sentiment-regression study over company-specific
financial sentences. It also models the module's sliding-window n-gram builder
and its longest-text measure.

The error analysis works in four steps:

- **Cross-validation.** `error_cross_validate` cross-validates a model and
  scores each held-out example on its own. The result is a list of
  `(index, predicted value, score)` triples.
- **Worst predictions.** `top_n_errors` sorts the triples by descending score
  and keeps the first `n`. It resolves each kept index into its sentence,
  company and true value.
- **Grouping by sentence.** `comps2sent` groups the record indices by
  sentence, where two records share a sentence when their texts are equal.
  It files each group under its size, which is the number of records
  (company mentions) that share the sentence; two records with the same
  text and the same company count twice.
- **Filing the errors.** `sent_type_errors` files each selected error under
  the size of its sentence's group. `error_analysis` chains the steps and
  counts the errors filed under each size.

Modules, one per function of the source:

- `NGrams`: `get_n_grams`, `ngrams` and `max_length`.
- `CrossValidate`: `error_cross_validate`.
- `Ranking`: `top_n_errors`.
- `Grouping`: `comps2sent`.
- `Strata`: `sent_type_errors`.
- `Pipeline`: `error_analysis`.

Where the source updates state in loops, the model is a method with the
same loops. Its postcondition ties the result to a specification function:

- `get_n_grams` and `ngrams`.
- `error_cross_validate`'s fold and example loops.
- The two dictionary-building loops of `comps2sent`.
- The inversion and filing loops of `sent_type_errors`.

`max_length` is a method with the source's loop too; its postcondition
states outright that the result bounds every text's token count and is
reached by one of them.

Lemmas then prove about those functions what the source promises. The pure
parts of the source are functions with lemmas:

- The sort, slice and comprehension of `top_n_errors`.
- The composition in `error_analysis`.

How Python's semantics are modelled:

- **Dictionaries.** A Python dictionary is a `map`. Where iteration order
  matters, it comes with the sequence of its keys in insertion order.
  - `comps2sent` returns the key order of the dictionary it builds.
  - `sent_type_errors` takes the iteration order of its input dictionary as
    a parameter. For buckets that share no index, as those of `comps2sent`
    do, its result is proved the same for every order; where buckets
    overlap, an index keeps the count of the last bucket walked.
- **Sorting.** `sorted(..., reverse=True)` is a stable insertion sort on
  descending score.
- **Slicing.** `xs[:n]` follows Python's rules for every integer `n`,
  negative included.
- **Text choice.** `train_text` is a sequence with its own element type,
  so records can be grouped by raw sentences while the model sees another
  form of the data. A falsy `train_text` is the empty sequence.

## Model

| member | source | states |
|---|---|---|
| NGrams.GetNGrams | helper.py:139-148 | for n >= 1, the result is the n-grams of the tokens: max(0, len - n + 1) strings, the j-th being tokens j..j+n-1 joined by single spaces |
| NGrams.UnigramsAreTokens | helper.py:139-148 | the 1-grams of a token list are the tokens themselves |
| NGrams.UnitRangeShortcutAgrees | helper.py:151-158 | the (1, 1) shortcut that returns each token list unchanged gives the same result as the general path over n = 1..1 |
| NGrams.GramsInRangeStep | helper.py:156-157 | extending the collected n-grams by those of the next n keeps them a prefix of all n-grams of the range |
| NGrams.Ngrams | helper.py:135-160 | one result list per token list; each is the list itself for the range (1, 1), else the n-grams of every n of the inclusive range, grouped by n in increasing order; a range that would call get_n_grams with n <= 0 is excluded |
| NGrams.GramsInRangeCount | helper.py:156-157 | over any range of n from 1 up, the number of n-grams is the sum over n of max(0, len - n + 1) |
| NGrams.WindowCountClosedForm | helper.py:156-157 | while no n exceeds len + 1, that sum in closed form: (hi - lo + 1)(2 len + 2 - lo - hi) / 2 |
| NGrams.GramsInRangeLength | helper.py:156-157 | the number of n-grams over a range whose largest n is at most len + 1, in closed form |
| NGrams.MaxLength | helper.py:60-73 | the result bounds every text's token count and is attained by some text, or is 0 |
| CrossValidate.Select | helper.py:299-302 | indexing an array by an index array picks the elements at those indices, in order |
| CrossValidate.FoldRecords | helper.py:301-308 | one fold gives one triple per prediction: the i-th carries the fold's i-th test index, the i-th prediction and the score of that prediction against its true value |
| CrossValidate.CrossValidation | helper.py:298-308 | every record's index is an index of the data |
| CrossValidate.ErrorCrossValidate | helper.py:280-309 | the results are the fold records of every fold, fold after fold, and every index is an index of the data |
| CrossValidate.CrossValidationFollowsFolds | helper.py:298-308 | when the model predicts every held-out example, the records' indices are the folds' test indices in fold order |
| CrossValidate.OneRecordPerExample | helper.py:298-308 | with folds whose test sets partition 0..M-1 and full predictions, there are exactly M records and each index 0..M-1 occurs exactly once |
| Ranking.InsertPermutes | helper.py:322 | inserting a record adds exactly that record |
| Ranking.InsertKeepsDescending | helper.py:322 | inserting into a descending list keeps it descending |
| Ranking.InsertIsStable | helper.py:322 | a record inserted goes in front of the records of equal score already there |
| Ranking.SortByScoreSpec | helper.py:322 | the sort is descending in score, a permutation of its input, and stable: the records of each score keep their input order |
| Ranking.SortByScoreOrders | helper.py:322 | the sort is descending and a permutation |
| Ranking.SortByScoreIsStable | helper.py:322 | the records of each score keep their input order |
| Ranking.SliceEnd | helper.py:323 | the slice [:n] keeps min(n, len) elements for n >= 0, and max(0, len + n) for n < 0 |
| Ranking.TopScored | helper.py:322-323 | every kept record is one of the input records |
| Ranking.TopScoredSpec | helper.py:322-323 | exactly SliceEnd(n, len) records, descending, a sub-multiset of the input; no record left out scores above a kept one; among equal scores the earliest input records are kept, in input order |
| Ranking.SplitDescending | helper.py:322-323 | cutting a descending list leaves a descending front, and nothing in the back scores above anything in the front |
| Ranking.TopNErrors | helper.py:312-326 | SliceEnd(n, len) records; the k-th copies the index and predicted value of the k-th kept triple and takes sentence, company and true value at that index |
| Ranking.TopTwoOfThree | helper.py:322-326 | on scores 1, 3, 2 the top two are the records scored 3 and 2, in that order |
| Grouping.IndicesOf | helper.py:341-346 | the index list of a sentence holds indices of that sentence, strictly increasing |
| Grouping.IndicesOfComplete | helper.py:341-346 | every index of a sentence is in its index list |
| Grouping.FirstOccurrencesSound | helper.py:341-346 | the dictionary's keys are distinct texts of the data |
| Grouping.FirstOccurrencesComplete | helper.py:341-346 | every text of the data is a key |
| Grouping.SentenceCompanies | helper.py:340-346 | the first loop builds, for each sentence, its (company, index) pairs in index order, with keys in first-insertion order |
| Grouping.SentenceIndexPrefix | helper.py:341-346 | after the first i records, the keys are the sentences seen so far in first-occurrence order, and each sentence's pairs are its indices among them, each with its company |
| Grouping.SentenceIds | helper.py:341-346 | after all records, each sentence's pairs carry exactly that sentence's indices |
| Grouping.BucketsAreSizeFilters | helper.py:347-351 | a bucket exists for size k exactly when some group has size k, and it holds the groups of size k in their order |
| Grouping.BucketStep | helper.py:348-351 | appending the next group to the bucket of its size extends the bucketing by that group, and adding the size as a key when it is new keeps every key listed once |
| Grouping.OfSizeKeepsHeadsIncreasing | helper.py:347-351 | taking the groups of one size keeps their first indices increasing |
| Grouping.SentenceGroupsHeadsIncrease | helper.py:340-351 | the sentences' groups come in increasing order of first index |
| Grouping.BucketedGroupsAreSentences | helper.py:347-351 | every list in the result is one sentence's complete, increasing index list, filed under its own length |
| Grouping.SentenceOfIndexIsBucketed | helper.py:347-351 | every index's sentence group is in the result under its size |
| Grouping.CompanyGroupsWellFormed | helper.py:328-352 | buckets are non-empty and keyed by their lists' length; each list is a sentence's complete increasing index list; every index's list is present; within a bucket, sentences come in first-occurrence order |
| Grouping.IndexInExactlyOneGroup | helper.py:328-352 | the result partitions the indices: an index lies in exactly one list, once, and that list is its sentence's group under its size |
| Grouping.TwoCompaniesShareSentence | helper.py:328-352 | on texts a, a, b the result is {2: [[0, 1]], 1: [[2]]} |
| Grouping.Comps2Sent | helper.py:328-352 | the result is the groups of each sentence bucketed by size, it satisfies the partition properties above, and the returned key order lists each key once |
| Strata.SetListsSpec | helper.py:363-366 | setting every index of the lists to k adds exactly those indices, mapped to k, leaving the rest unchanged |
| Strata.CountLookupSpec | helper.py:362-366 | every index in the lookup points to a bucket holding it, and every index of every bucket is in the lookup |
| Strata.CountLookupOfDisjoint | helper.py:362-366 | with buckets that share no index, in any key order, the lookup holds exactly the buckets' indices, each mapped to its bucket's key |
| Strata.OverlappingBucketsFollowOrder | helper.py:363-366 | when two buckets share index 0, walking keys 1, 2 maps it to 2 and walking 2, 1 maps it to 1 |
| Strata.CompanyGroupsDisjoint | helper.py:328-352 | the buckets of the grouping share no index |
| Strata.LookupOfCompanyGroups | helper.py:362-366 | inverting the grouping's result, in any key order, maps every record index to the size of its sentence's group and holds no other index |
| Strata.WithCount | helper.py:368-374 | the errors of one count, in order: only errors of that count, and all of them |
| Strata.StratifyIsFilter | helper.py:368-374 | the result has a key for each count some error has, and under it exactly the errors of that count, in input order |
| Strata.Distribution | helper.py:399 | the distribution has the keys of the details and each value is the length of its list |
| Strata.StratifyTotal | helper.py:368-374 | the lengths of the filed lists add up to the number of errors |
| Strata.SentTypeErrors | helper.py:354-375 | the result is the errors filed under the count of their index, with the lookup built from the buckets in the dictionary's key order; an index missing from the lookup is excluded |
| Pipeline.GroupSizes | helper.py:390-393 | the sentence sizes come from train_text when it is non-empty, from the training data otherwise; they are defined for exactly the indices of those texts |
| Pipeline.DetailsBySentenceSize | helper.py:396-398 | each filed error sits under the number of records sharing its sentence, and every error is filed under that number |
| Pipeline.ErrorAnalysis | helper.py:377-400 | details are the top errors filed by the size of their sentence's group, in train_text when it is non-empty (of any element type) and in the training data otherwise; the distribution maps each key to its list's length; the counts add up to SliceEnd(num_errors, number of triples), which is SliceEnd(num_errors, M) when the folds partition the data and the model predicts every example |

## Left out

- Fold construction: `KFold`, the fold count and the shuffle are not modelled. The folds are an input.
- The partition of the data by the folds' test sets is a hypothesis of the lemmas that use it, not a precondition of `error_cross_validate`.
- The model: `fit` followed by `predict` is one function from training data, training values and held-out data to predictions. The model's internal state is not modelled.
- The score function (`mean_absolute_error` by default) is an uninterpreted function on single-element sequences.
- Numbers: predictions, values and scores are `real`. Floating-point rounding and NaN ordering are not modelled.
- CrossValidate.ErrorCrossValidate: a model that returns more predictions than a fold has test indices makes the source index past the end of `test`. That case is a precondition.
- Ranking.TopNErrors: an index outside `train_data`, `train_values` or `companies` makes the source raise an index error. That case is a precondition.
- Grouping.Comps2Sent: `companies` shorter than the texts makes the source raise an index error. That case is a precondition.
- Strata.SentTypeErrors: an error index in no bucket makes the source raise a `KeyError`. That case is a precondition.
- Strata.SentTypeErrors: the key order of the returned dictionary, the order in which errors first reach each count, is not modelled. Only the map and the order within each list are.
- Pipeline.ErrorAnalysis: the key order of the returned dictionaries is not modelled, for the same reason.
- NGrams.Ngrams: a range whose lower bound is at most 0 makes `get_n_grams` fail on an empty list once it is called. Such a range is a precondition unless the range is (1, 1), empty, or there are no token lists.
- NGrams.MaxLength: the tokenizer (`unitok_tokens`) is a parameter. The external tokenizer library is not part of this model.
- Pipeline.ErrorAnalysis: when `train_text` is falsy, the grouping keys its dictionary by the elements of `train_data`, which the source requires to be hashable (unhashable elements such as numpy vectors raise a `TypeError`); the model groups any element type with equality.
- Pipeline.GroupSizes: `train_text` is modelled as a sequence, and falsy means empty. The other falsy values Python accepts (`False`, `None`) all collapse to the empty sequence.
- The remaining functions of `helper.py` are not part of this model: configuration and file loading, word-vector construction (`process_data`), the tokenizer wrappers, cosine scoring, result comparison and report writing. They are I/O, numeric-library or printing code.
