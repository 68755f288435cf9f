/**
 * Grouping record indices by sentence and bucketing the groups by how many
 * companies (records) share the sentence.
 *
 * Two records belong to one sentence exactly when their texts are equal.
 * The intermediate dictionary from sentence to `(company, index)` pairs is
 * a map together with the order in which its keys were first inserted, as
 * a Python dictionary is; the resulting dictionary is a map from the
 * company count to the index lists of the sentences with that count.
 */
module Grouping {

  /** The indices `i` of `text` with `text[i] == v`, in increasing order. */
  function IndicesOf<T(==)>(text: seq<T>, v: T): (r: seq<nat>)
    ensures forall p :: 0 <= p < |r| ==> r[p] < |text| && text[r[p]] == v
    ensures forall p, q :: 0 <= p < q < |r| ==> r[p] < r[q]
    decreases |text|
  {
    if text == [] then []
    else
      var n := |text| - 1;
      IndicesOf(text[..n], v) + if text[n] == v then [n] else []
  }

  /** The distinct values of `text` in the order they first occur. */
  function FirstOccurrences<T(==)>(text: seq<T>): seq<T>
    decreases |text|
  {
    if text == [] then []
    else
      var n := |text| - 1;
      var keys := FirstOccurrences(text[..n]);
      if text[n] in keys then keys else keys + [text[n]]
  }

  /** The first occurrences are distinct values of `text`. */
  lemma {:induction false} FirstOccurrencesSound<T>(text: seq<T>)
    ensures forall j, k :: 0 <= j < k < |FirstOccurrences(text)| ==> FirstOccurrences(text)[j] != FirstOccurrences(text)[k]
    ensures forall j :: 0 <= j < |FirstOccurrences(text)| ==> FirstOccurrences(text)[j] in text
    decreases |text|
  {
    if text != [] {
      var n := |text| - 1;
      var keys := FirstOccurrences(text[..n]);
      FirstOccurrencesSound(text[..n]);
      forall j | 0 <= j < |keys| ensures keys[j] in text {
        var q :| 0 <= q < n && text[..n][q] == keys[j];
        assert text[q] == keys[j];
      }
    }
  }

  /** One index list per distinct sentence, sentences in first-occurrence order. */
  function SentenceGroups<T(==)>(text: seq<T>): seq<seq<nat>>
  {
    var keys := FirstOccurrences(text);
    seq(|keys|, j requires 0 <= j < |keys| => IndicesOf(text, keys[j]))
  }

  /** The groups of size `k`, in their order. */
  function OfSize(groups: seq<seq<nat>>, k: nat): (r: seq<seq<nat>>)
    ensures forall g :: g in r <==> g in groups && |g| == k
    decreases |groups|
  {
    if groups == [] then []
    else
      var n := |groups| - 1;
      assert groups == groups[..n] + [groups[n]];
      OfSize(groups[..n], k) + if |groups[n]| == k then [groups[n]] else []
  }

  /** Appends each group, in turn, to the bucket keyed by its size. */
  function BucketBySize(groups: seq<seq<nat>>): map<nat, seq<seq<nat>>>
    decreases |groups|
  {
    if groups == [] then map[]
    else
      var n := |groups| - 1;
      var m := BucketBySize(groups[..n]);
      var g := groups[n];
      m[|g| := (if |g| in m then m[|g|] else []) + [g]]
  }

  /**
   * `order` lists every key of `m` exactly once: the iteration order of a
   * dictionary with the keys of `m`.
   */
  predicate KeyOrder(order: seq<nat>, m: map<nat, seq<seq<nat>>>) {
    && (forall j :: 0 <= j < |order| ==> order[j] in m)
    && (forall k :: k in m ==> k in order)
    && (forall j1, j2 :: 0 <= j1 < j2 < |order| ==> order[j1] != order[j2])
  }

  /** The result of `comps2sent`, as a function of the texts. */
  function CompanyGroups<T(==)>(text: seq<T>): map<nat, seq<seq<nat>>>
  {
    BucketBySize(SentenceGroups(text))
  }

  /** Every group is non-empty and the groups' first indices strictly increase. */
  predicate HeadsIncrease(groups: seq<seq<nat>>) {
    && (forall j :: 0 <= j < |groups| ==> groups[j] != [])
    && (forall j1, j2 :: 0 <= j1 < j2 < |groups| ==> groups[j1][0] < groups[j2][0])
  }

  /**
   * What `comps2sent` promises about its result `m` for the texts `text`.
   */
  ghost predicate IsCompanyCountMap<T>(text: seq<T>, m: map<nat, seq<seq<nat>>>) {
    // every bucket is non-empty and holds index lists whose length is its key
    && (forall k :: k in m ==> m[k] != [] && forall j :: 0 <= j < |m[k]| ==> |m[k][j]| == k)
    // every index list is the complete, increasing list of indices of one sentence
    && (forall k, j :: k in m && 0 <= j < |m[k]| ==>
          m[k][j] != [] && m[k][j][0] < |text| && m[k][j] == IndicesOf(text, text[m[k][j][0]]))
    // every index's sentence has its index list in the bucket of that list's length
    && (forall i :: 0 <= i < |text| ==>
          var g := IndicesOf(text, text[i]); |g| in m && g in m[|g|])
    // within a bucket, sentences come in the order of their first occurrence
    && (forall k, j1, j2 :: k in m && 0 <= j1 < j2 < |m[k]| ==>
          m[k][j1] != [] && m[k][j2] != [] && m[k][j1][0] < m[k][j2][0])
  }

  lemma {:induction false} BucketsAreSizeFilters(groups: seq<seq<nat>>)
    ensures forall k :: k in BucketBySize(groups) <==> OfSize(groups, k) != []
    ensures forall k :: k in BucketBySize(groups) ==> BucketBySize(groups)[k] == OfSize(groups, k)
    decreases |groups|
  {
    if groups != [] {
      var n := |groups| - 1;
      BucketsAreSizeFilters(groups[..n]);
    }
  }

  lemma {:induction false} OfSizeKeepsHeadsIncreasing(groups: seq<seq<nat>>, k: nat)
    requires HeadsIncrease(groups)
    ensures HeadsIncrease(OfSize(groups, k))
    decreases |groups|
  {
    if groups != [] {
      var n := |groups| - 1;
      var front := groups[..n];
      assert HeadsIncrease(front);
      OfSizeKeepsHeadsIncreasing(front, k);
      var kept := OfSize(front, k);
      if |groups[n]| == k {
        OfSizeHeadsBelow(front, k, groups[n][0]);
        AppendKeepsHeadsIncreasing(kept, groups[n]);
        assert OfSize(groups, k) == kept + [groups[n]];
      } else {
        assert OfSize(groups, k) == kept + [];
      }
    }
  }

  /** Filtering by size keeps every head below a bound that all heads were below. */
  lemma OfSizeHeadsBelow(groups: seq<seq<nat>>, k: nat, bound: nat)
    requires forall j :: 0 <= j < |groups| ==> groups[j] != [] && groups[j][0] < bound
    ensures forall j :: 0 <= j < |OfSize(groups, k)| ==> OfSize(groups, k)[j][0] < bound
  {
    var kept := OfSize(groups, k);
    forall j | 0 <= j < |kept| ensures kept[j] != [] && kept[j][0] < bound {
      assert kept[j] in groups;
    }
  }

  lemma AppendKeepsHeadsIncreasing(groups: seq<seq<nat>>, g: seq<nat>)
    requires HeadsIncrease(groups) && g != []
    requires forall j :: 0 <= j < |groups| ==> groups[j][0] < g[0]
    ensures HeadsIncrease(groups + [g])
  {
  }

  /** Every index holding `v` is in the index list of `v`. */
  lemma {:induction false} IndicesOfComplete<T>(text: seq<T>, v: T, i: nat)
    requires i < |text| && text[i] == v
    ensures i in IndicesOf(text, v)
    decreases |text|
  {
    var n := |text| - 1;
    if i < n {
      IndicesOfComplete(text[..n], v, i);
    }
  }

  /** Every value of `text` is among its first occurrences. */
  lemma {:induction false} FirstOccurrencesComplete<T>(text: seq<T>, v: T)
    requires v in text
    ensures v in FirstOccurrences(text)
    decreases |text|
  {
    var n := |text| - 1;
    if v != text[n] {
      assert text == text[..n] + [text[n]];
      FirstOccurrencesComplete(text[..n], v);
    }
  }

  lemma {:induction false} IndicesOfNonEmpty<T>(text: seq<T>, v: T)
    ensures IndicesOf(text, v) != [] <==> v in text
  {
    var r := IndicesOf(text, v);
    if r != [] {
      assert text[r[0]] == v;
    }
    if v in text {
      var i :| 0 <= i < |text| && text[i] == v;
      IndicesOfComplete(text, v, i);
    }
  }

  /** A value of the front of `text` keeps its first index when `text` grows. */
  lemma FirstIndexKept<T>(text: seq<T>, v: T)
    requires text != [] && v in text[..|text| - 1]
    ensures IndicesOf(text, v) != [] && IndicesOf(text[..|text| - 1], v) != []
    ensures IndicesOf(text, v)[0] == IndicesOf(text[..|text| - 1], v)[0]
  {
    IndicesOfNonEmpty(text[..|text| - 1], v);
  }

  /** A value first seen at the last position has that position as its only index. */
  lemma NewValueGroup<T>(text: seq<T>)
    requires text != [] && text[|text| - 1] !in text[..|text| - 1]
    ensures IndicesOf(text, text[|text| - 1]) == [|text| - 1]
  {
    IndicesOfNonEmpty(text[..|text| - 1], text[|text| - 1]);
  }

  /** The index lists of the sentences come in increasing order of first index. */
  lemma {:induction false} SentenceGroupsHeadsIncrease<T>(text: seq<T>)
    ensures HeadsIncrease(SentenceGroups(text))
    decreases |text|
  {
    var groups := SentenceGroups(text);
    var keys := FirstOccurrences(text);
    FirstOccurrencesSound(text);
    forall j | 0 <= j < |groups| ensures groups[j] != [] {
      IndicesOfNonEmpty(text, keys[j]);
    }
    if text != [] {
      var n := |text| - 1;
      var front := text[..n];
      var keys' := FirstOccurrences(front);
      var groups' := SentenceGroups(front);
      FirstOccurrencesSound(front);
      SentenceGroupsHeadsIncrease(front);
      assert keys == keys' || keys == keys' + [text[n]];
      forall j | 0 <= j < |keys'| ensures groups[j][0] == groups'[j][0] {
        assert keys[j] == keys'[j] && keys'[j] in front;
        FirstIndexKept(text, keys'[j]);
      }
      forall j1, j2 | 0 <= j1 < j2 < |groups| ensures groups[j1][0] < groups[j2][0] {
        if j2 < |keys'| {
          assert groups'[j1][0] < groups'[j2][0];
        } else {
          assert keys[j2] == text[n] && text[n] !in keys';
          if text[n] in front {
            FirstOccurrencesComplete(front, text[n]);
          }
          NewValueGroup(text);
          assert groups'[j1][0] < |front|;
        }
      }
    }
  }

  /** Every index list of the result is one sentence's complete index list. */
  lemma BucketedGroupsAreSentences<T>(text: seq<T>, k: nat, j: nat)
    requires k in CompanyGroups(text) && j < |CompanyGroups(text)[k]|
    ensures var g := CompanyGroups(text)[k][j];
            g != [] && g[0] < |text| && g == IndicesOf(text, text[g[0]]) && |g| == k
  {
    var groups := SentenceGroups(text);
    var keys := FirstOccurrences(text);
    var g := CompanyGroups(text)[k][j];
    BucketsAreSizeFilters(groups);
    assert g in OfSize(groups, k);
    var jj :| 0 <= jj < |groups| && groups[jj] == g;
    assert g == IndicesOf(text, keys[jj]);
    FirstOccurrencesSound(text);
    IndicesOfNonEmpty(text, keys[jj]);
  }

  /** Every index's sentence group is in the result, under its size. */
  lemma SentenceOfIndexIsBucketed<T>(text: seq<T>, i: nat)
    requires i < |text|
    ensures var g := IndicesOf(text, text[i]);
            |g| in CompanyGroups(text) && g in CompanyGroups(text)[|g|]
  {
    var groups := SentenceGroups(text);
    var keys := FirstOccurrences(text);
    var g := IndicesOf(text, text[i]);
    BucketsAreSizeFilters(groups);
    FirstOccurrencesComplete(text, text[i]);
    var jj :| 0 <= jj < |keys| && keys[jj] == text[i];
    assert groups[jj] == g;
    assert g in OfSize(groups, |g|);
  }

  /** The result of `comps2sent` is a partition of the indices by sentence, bucketed by size. */
  lemma CompanyGroupsWellFormed<T>(text: seq<T>)
    ensures IsCompanyCountMap(text, CompanyGroups(text))
  {
    var groups := SentenceGroups(text);
    var m := CompanyGroups(text);
    BucketsAreSizeFilters(groups);
    SentenceGroupsHeadsIncrease(text);
    forall k | k in m ensures HeadsIncrease(m[k]) {
      OfSizeKeepsHeadsIncreasing(groups, k);
    }
    forall k, j | k in m && 0 <= j < |m[k]|
      ensures m[k][j] != [] && m[k][j][0] < |text| && m[k][j] == IndicesOf(text, text[m[k][j][0]])
      ensures |m[k][j]| == k
    {
      BucketedGroupsAreSentences(text, k, j);
    }
    forall i | 0 <= i < |text| ensures var g := IndicesOf(text, text[i]); |g| in m && g in m[|g|] {
      SentenceOfIndexIsBucketed(text, i);
    }
  }

  /**
   * Each index lies in exactly one index list of the result, and appears
   * there once; that list is its sentence's group and sits under its size.
   */
  lemma IndexInExactlyOneGroup<T>(text: seq<T>, m: map<nat, seq<seq<nat>>>, i: nat,
                                      k1: nat, j1: nat, k2: nat, j2: nat)
    requires IsCompanyCountMap(text, m)
    requires k1 in m && j1 < |m[k1]| && i in m[k1][j1]
    requires k2 in m && j2 < |m[k2]| && i in m[k2][j2]
    ensures k1 == k2 && j1 == j2
    ensures i < |text| && m[k1][j1] == IndicesOf(text, text[i]) && k1 == |IndicesOf(text, text[i])|
    ensures forall p, q :: 0 <= p < q < |m[k1][j1]| ==> m[k1][j1][p] != m[k1][j1][q]
  {
    GroupOfIndex(text, m, i, k1, j1);
    GroupOfIndex(text, m, i, k2, j2);
  }

  lemma GroupOfIndex<T>(text: seq<T>, m: map<nat, seq<seq<nat>>>, i: nat, k: nat, j: nat)
    requires IsCompanyCountMap(text, m)
    requires k in m && j < |m[k]| && i in m[k][j]
    ensures i < |text| && m[k][j] == IndicesOf(text, text[i]) && k == |IndicesOf(text, text[i])|
  {
    var g := m[k][j];
    var p :| 0 <= p < |g| && g[p] == i;
    assert text[i] == text[g[0]];
  }

  /** Growing the texts by one position extends each sentence's index list. */
  lemma IndicesOfSnoc<T>(text: seq<T>, i: nat, v: T)
    requires i < |text|
    ensures IndicesOf(text[..i + 1], v) == IndicesOf(text[..i], v) + if text[i] == v then [i] else []
  {
    assert text[..i + 1][..i] == text[..i];
  }

  /** Growing the texts by one position adds its text as a key if it is new. */
  lemma FirstOccurrencesSnoc<T>(text: seq<T>, i: nat)
    requires i < |text|
    ensures FirstOccurrences(text[..i + 1])
            == var keys := FirstOccurrences(text[..i]);
               if text[i] in keys then keys else keys + [text[i]]
  {
    assert text[..i + 1][..i] == text[..i];
  }

  /** The sentences of the worked example, in first-occurrence order. */
  lemma ExampleSentences(text: seq<string>)
    requires text == ["a", "a", "b"]
    ensures FirstOccurrences(text) == ["a", "b"]
  {
    var one: seq<string> := ["a"];
    var two: seq<string> := ["a", "a"];
    assert one[..0] == [];
    assert FirstOccurrences(one) == ["a"];
    assert two[..1] == one;
    assert FirstOccurrences(two) == ["a"];
    assert text[..2] == two;
  }

  /** The index lists of the worked example. */
  lemma ExampleIndexLists(text: seq<string>)
    requires text == ["a", "a", "b"]
    ensures IndicesOf(text, "a") == [0, 1]
    ensures IndicesOf(text, "b") == [2]
  {
    var one: seq<string> := ["a"];
    var two: seq<string> := ["a", "a"];
    assert one[..0] == [];
    assert IndicesOf(one, "a") == [0] && IndicesOf(one, "b") == [];
    assert two[..1] == one;
    assert IndicesOf(two, "a") == [0, 1] && IndicesOf(two, "b") == [];
    assert text[..2] == two;
  }

  /** The worked example: two records share sentence "a", one has "b" alone. */
  lemma TwoCompaniesShareSentence()
    ensures CompanyGroups(["a", "a", "b"]) == map[2 := [[0, 1]], 1 := [[2]]]
  {
    var text := ["a", "a", "b"];
    ExampleSentences(text);
    ExampleIndexLists(text);
    var groups := SentenceGroups(text);
    var first: seq<seq<nat>> := [[0, 1]];
    var both: seq<seq<nat>> := [[0, 1], [2]];
    assert groups == both;
    assert first[..0] == [] && |first[0]| == 2;
    var m1: map<nat, seq<seq<nat>>> := map[2 := first];
    var empty: seq<seq<nat>> := [];
    assert BucketBySize(first) == BucketBySize(empty)[2 := empty + [first[0]]];
    assert empty + [first[0]] == first;
    assert BucketBySize(first) == m1;
    assert both[..1] == first && |both[1]| == 1 && 1 !in m1;
    assert BucketBySize(both) == m1[1 := empty + [both[1]]];
    assert empty + [both[1]] == [[2]];
  }

  /** The list of indices of a list of `(company, index)` pairs. */
  function Ids(compsid: seq<(string, nat)>): (r: seq<nat>)
    ensures |r| == |compsid| && forall p :: 0 <= p < |r| ==> r[p] == compsid[p].1
  {
    seq(|compsid|, p requires 0 <= p < |compsid| => compsid[p].1)
  }

  /** The keys of `m` are exactly the entries of `keyOrder`. */
  ghost predicate KeysListed<T>(m: map<T, seq<(string, nat)>>, keyOrder: seq<T>) {
    && (forall v :: v in m ==> v in keyOrder)
    && (forall j :: 0 <= j < |keyOrder| ==> keyOrder[j] in m)
  }

  /** Every sentence's pairs carry the indices of that sentence among the first `i` records. */
  ghost predicate IdsMatch<T>(textData: seq<T>, i: nat, m: map<T, seq<(string, nat)>>)
    requires i <= |textData|
  {
    forall v :: v in m ==> Ids(m[v]) == IndicesOf(textData[..i], v)
  }

  /** Every pair is `(company of index, index)` for an index below `i`. */
  ghost predicate PairsMatch<T>(companies: seq<string>, i: nat, m: map<T, seq<(string, nat)>>)
    requires i <= |companies|
  {
    forall v, p :: v in m && 0 <= p < |m[v]| ==> m[v][p].1 < i && m[v][p].0 == companies[m[v][p].1]
  }

  /**
   * The sentence dictionary `m` with key order `keyOrder` after the first
   * `i` records: keys in first-occurrence order, and for every sentence its
   * `(company, index)` pairs in index order.
   */
  ghost predicate SentenceIndexUpTo<T>(textData: seq<T>, companies: seq<string>, i: nat,
                                       m: map<T, seq<(string, nat)>>, keyOrder: seq<T>)
    requires i <= |textData| <= |companies|
  {
    && keyOrder == FirstOccurrences(textData[..i])
    && KeysListed(m, keyOrder)
    && IdsMatch(textData, i, m)
    && PairsMatch(companies, i, m)
  }

  /** The dictionary after record `i` is added: its pair appended under its text. */
  function AddRecord<T>(m: map<T, seq<(string, nat)>>, text: T, company: string, i: nat): map<T, seq<(string, nat)>> {
    m[text := (if text in m then m[text] else []) + [(company, i)]]
  }

  lemma StepKeys<T>(textData: seq<T>, i: nat, m: map<T, seq<(string, nat)>>, keyOrder: seq<T>, company: string)
    requires i < |textData|
    requires keyOrder == FirstOccurrences(textData[..i]) && KeysListed(m, keyOrder)
    ensures var text := textData[i];
            var keyOrder' := if text in m then keyOrder else keyOrder + [text];
            keyOrder' == FirstOccurrences(textData[..i + 1]) && KeysListed(AddRecord(m, text, company, i), keyOrder')
  {
    FirstOccurrencesSnoc(textData, i);
  }

  lemma StepIds<T>(textData: seq<T>, i: nat, m: map<T, seq<(string, nat)>>, keyOrder: seq<T>, company: string)
    requires i < |textData|
    requires keyOrder == FirstOccurrences(textData[..i]) && KeysListed(m, keyOrder)
    requires IdsMatch(textData, i, m)
    ensures IdsMatch(textData, i + 1, AddRecord(m, textData[i], company, i))
  {
    var text := textData[i];
    var m' := AddRecord(m, text, company, i);
    var prefix := textData[..i + 1];
    assert prefix[..i] == textData[..i] && prefix[i] == text;
    if text in m {
      StepIdsSeen(prefix, m[text], company);
    } else {
      assert text !in keyOrder;
      StepIdsNew(prefix, company);
    }
    forall v | v in m' ensures Ids(m'[v]) == IndicesOf(textData[..i + 1], v) {
      if v != text {
        assert m'[v] == m[v];
        IndicesOfSnoc(textData, i, v);
      }
    }
  }

  /** A record whose sentence was seen before joins that sentence's pairs. */
  lemma StepIdsSeen<T>(text: seq<T>, pairs: seq<(string, nat)>, company: string)
    requires text != []
    requires Ids(pairs) == IndicesOf(text[..|text| - 1], text[|text| - 1])
    ensures Ids(pairs + [(company, |text| - 1)]) == IndicesOf(text, text[|text| - 1])
  {
  }

  /** A record whose sentence is new starts that sentence's pairs. */
  lemma StepIdsNew<T>(text: seq<T>, company: string)
    requires text != []
    requires text[|text| - 1] !in FirstOccurrences(text[..|text| - 1])
    ensures Ids([(company, |text| - 1)]) == IndicesOf(text, text[|text| - 1])
  {
    var n := |text| - 1;
    if text[n] in text[..n] {
      FirstOccurrencesComplete(text[..n], text[n]);
    }
    IndicesOfNonEmpty(text[..n], text[n]);
  }

  lemma StepPairs<T>(companies: seq<string>, i: nat, m: map<T, seq<(string, nat)>>, text: T)
    requires i < |companies|
    requires PairsMatch(companies, i, m)
    ensures PairsMatch(companies, i + 1, AddRecord(m, text, companies[i], i))
  {
  }

  /** One step of the first loop of `comps2sent`: record `i` is added. */
  lemma SentenceIndexStep<T>(textData: seq<T>, companies: seq<string>, i: nat,
                             m: map<T, seq<(string, nat)>>, keyOrder: seq<T>,
                             compsIndexs: seq<(string, nat)>, keyOrder': seq<T>)
    requires i < |textData| <= |companies|
    requires SentenceIndexUpTo(textData, companies, i, m, keyOrder)
    requires compsIndexs == (if textData[i] in m then m[textData[i]] else []) + [(companies[i], i)]
    requires keyOrder' == if textData[i] in m then keyOrder else keyOrder + [textData[i]]
    ensures SentenceIndexUpTo(textData, companies, i + 1, m[textData[i] := compsIndexs], keyOrder')
  {
    assert m[textData[i] := compsIndexs] == AddRecord(m, textData[i], companies[i], i);
    StepKeys(textData, i, m, keyOrder, companies[i]);
    StepIds(textData, i, m, keyOrder, companies[i]);
    StepPairs(companies, i, m, textData[i]);
  }

  /**
   * The sentence dictionary after all of `text`: each sentence's
   * `(company, index)` pairs, appended record by record.
   */
  function SentenceIndex<T(==)>(text: seq<T>, companies: seq<string>): map<T, seq<(string, nat)>>
    requires |text| <= |companies|
    decreases |text|
  {
    if text == [] then map[]
    else
      var n := |text| - 1;
      AddRecord(SentenceIndex(text[..n], companies), text[n], companies[n], n)
  }

  /**
   * After the first `i` records the dictionary has the sentences seen so
   * far as keys, in first-occurrence order, and under each the pairs of
   * exactly its records, in index order.
   */
  lemma {:induction false} SentenceIndexPrefix<T>(textData: seq<T>, companies: seq<string>, i: nat)
    requires i <= |textData| <= |companies|
    ensures SentenceIndexUpTo(textData, companies, i, SentenceIndex(textData[..i], companies),
                              FirstOccurrences(textData[..i]))
  {
    if i > 0 {
      var n := i - 1;
      SentenceIndexPrefix(textData, companies, n);
      var m := SentenceIndex(textData[..n], companies);
      var text := textData[n];
      assert textData[..i][..n] == textData[..n];
      var compsIndexs := (if text in m then m[text] else []) + [(companies[n], n)];
      StepKeys(textData, n, m, FirstOccurrences(textData[..n]), companies[n]);
      SentenceIndexStep(textData, companies, n, m, FirstOccurrences(textData[..n]), compsIndexs,
                        FirstOccurrences(textData[..i]));
    }
  }

  /**
   * Adding record `i` appends its pair under its sentence, and adds the
   * sentence to the key order exactly when it is not yet a key.
   */
  lemma SentenceIndexGrows<T>(textData: seq<T>, companies: seq<string>, i: nat)
    requires i < |textData| <= |companies|
    ensures var m := SentenceIndex(textData[..i], companies);
            var text := textData[i];
            && SentenceIndex(textData[..i + 1], companies)
               == m[text := (if text in m then m[text] else []) + [(companies[i], i)]]
            && FirstOccurrences(textData[..i + 1])
               == if text in m then FirstOccurrences(textData[..i]) else FirstOccurrences(textData[..i]) + [text]
  {
    SentenceSeen(textData, companies, i);
    FirstOccurrencesSnoc(textData, i);
    assert textData[..i + 1][..i] == textData[..i];
  }

  /** Record `i`'s sentence is a key after the first `i` records exactly when it occurred among them. */
  lemma SentenceSeen<T>(textData: seq<T>, companies: seq<string>, i: nat)
    requires i < |textData| <= |companies|
    ensures textData[i] in SentenceIndex(textData[..i], companies)
            <==> textData[i] in FirstOccurrences(textData[..i])
  {
    SentenceIndexPrefix(textData, companies, i);
  }

  /** Every sentence's pairs carry exactly its indices. */
  lemma SentenceIds<T>(text: seq<T>, companies: seq<string>, v: T)
    requires |text| <= |companies| && v in FirstOccurrences(text)
    ensures v in SentenceIndex(text, companies)
    ensures Ids(SentenceIndex(text, companies)[v]) == IndicesOf(text, v)
  {
    SentenceIndexPrefix(text, companies, |text|);
    assert text[..|text|] == text;
  }

  /**
   * The first loop of `comps2sent`: the dictionary from each sentence to
   * its `(company, index)` pairs, with the order its keys were inserted in.
   */
  method SentenceCompanies<T(==)>(textData: seq<T>, companies: seq<string>)
    returns (sentenceCompid: map<T, seq<(string, nat)>>, keyOrder: seq<T>)
    requires |companies| >= |textData|
    ensures sentenceCompid == SentenceIndex(textData, companies)
    ensures keyOrder == FirstOccurrences(textData)
  {
    sentenceCompid := map[];
    keyOrder := [];
    for i := 0 to |textData|
      invariant sentenceCompid == SentenceIndex(textData[..i], companies)
      invariant keyOrder == FirstOccurrences(textData[..i])
    {
      var text := textData[i];
      var comp := companies[i];
      SentenceIndexGrows(textData, companies, i);
      var compsIndexs := if text in sentenceCompid then sentenceCompid[text] else [];
      compsIndexs := compsIndexs + [(comp, i)];
      if text !in sentenceCompid {
        keyOrder := keyOrder + [text];
      }
      sentenceCompid := sentenceCompid[text := compsIndexs];
    }
    assert textData[..|textData|] == textData;
  }

  /** One step of the second loop of `comps2sent`: group `p` joins the bucket of its size. */
  lemma BucketStep(groups: seq<seq<nat>>, p: nat, m: map<nat, seq<seq<nat>>>, order: seq<nat>, g: seq<nat>)
    requires p < |groups| && g == groups[p]
    requires m == BucketBySize(groups[..p]) && KeyOrder(order, m)
    ensures m[|g| := (if |g| in m then m[|g|] else []) + [g]] == BucketBySize(groups[..p + 1])
    ensures KeyOrder(if |g| in m then order else order + [|g|], m[|g| := (if |g| in m then m[|g|] else []) + [g]])
  {
    assert groups[..p + 1][..p] == groups[..p];
  }

  /**
   * `comps2sent`: after building the sentence dictionary, walks its keys
   * in insertion order and appends each sentence's index list to the
   * bucket keyed by the number of its records.
   */
  method Comps2Sent<T(==)>(textData: seq<T>, companies: seq<string>)
    returns (compscountIds: map<nat, seq<seq<nat>>>, countOrder: seq<nat>)
    requires |companies| >= |textData|
    ensures compscountIds == CompanyGroups(textData)
    ensures IsCompanyCountMap(textData, compscountIds)
    ensures KeyOrder(countOrder, compscountIds)
  {
    var sentenceCompid, keyOrder := SentenceCompanies(textData, companies);
    ghost var groups := SentenceGroups(textData);
    compscountIds := map[];
    countOrder := [];
    for p := 0 to |keyOrder|
      invariant compscountIds == BucketBySize(groups[..p])
      invariant KeyOrder(countOrder, compscountIds)
    {
      SentenceIds(textData, companies, keyOrder[p]);
      var compsid := sentenceCompid[keyOrder[p]];
      BucketStep(groups, p, compscountIds, countOrder, Ids(compsid));
      var ids := if |compsid| in compscountIds then compscountIds[|compsid|] else [];
      ids := ids + [Ids(compsid)];
      if |compsid| !in compscountIds {
        countOrder := countOrder + [|compsid|];
      }
      compscountIds := compscountIds[|compsid| := ids];
    }
    assert groups[..|keyOrder|] == groups;
    CompanyGroupsWellFormed(textData);
  }
}
