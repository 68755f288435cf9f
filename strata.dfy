/**
 * Sorting the selected errors by the number of records (company mentions)
 * that share their sentence.
 *
 * The first step inverts the count-to-index-lists dictionary into a
 * dictionary from record index to count, walking the buckets in the
 * dictionary's key order; the second appends each error, in turn, to the
 * list keyed by its index's count.
 */
module Strata {
  import opened Grouping
  import opened Ranking

  /** `lookup` after setting each of `ids` to `k`, in turn. */
  function SetIds(lookup: map<nat, nat>, ids: seq<nat>, k: nat): map<nat, nat>
    decreases |ids|
  {
    if ids == [] then lookup
    else
      var n := |ids| - 1;
      SetIds(lookup, ids[..n], k)[ids[n] := k]
  }

  /** `lookup` after setting every index of every list of `lists` to `k`. */
  function SetLists(lookup: map<nat, nat>, lists: seq<seq<nat>>, k: nat): map<nat, nat>
    decreases |lists|
  {
    if lists == [] then lookup
    else
      var n := |lists| - 1;
      SetIds(SetLists(lookup, lists[..n], k), lists[n], k)
  }

  /**
   * The index-to-count dictionary built by the first loop of
   * `sent_type_errors`, the buckets taken in the order `order`; an index
   * found in several buckets keeps the count of the last one.
   */
  function CountLookup(buckets: map<nat, seq<seq<nat>>>, order: seq<nat>): map<nat, nat>
    requires forall j :: 0 <= j < |order| ==> order[j] in buckets
    decreases |order|
  {
    if order == [] then map[]
    else
      var n := |order| - 1;
      SetLists(CountLookup(buckets, order[..n]), buckets[order[n]], order[n])
  }

  /** Index `i` occurs in one of the lists. */
  predicate InLists(lists: seq<seq<nat>>, i: nat) {
    exists l :: 0 <= l < |lists| && i in lists[l]
  }

  /** Index `i` occurs in a list of the bucket keyed `k`. */
  predicate InBucket(buckets: map<nat, seq<seq<nat>>>, k: nat, i: nat) {
    k in buckets && InLists(buckets[k], i)
  }

  /** Buckets never share an index. */
  ghost predicate DisjointBuckets(buckets: map<nat, seq<seq<nat>>>) {
    forall k1, k2, i :: InBucket(buckets, k1, i) && InBucket(buckets, k2, i) ==> k1 == k2
  }

  lemma {:induction false} SetIdsSpec(lookup: map<nat, nat>, ids: seq<nat>, k: nat)
    ensures forall i :: i in SetIds(lookup, ids, k) <==> i in lookup || i in ids
    ensures forall i :: i in SetIds(lookup, ids, k) ==>
              SetIds(lookup, ids, k)[i] == if i in ids then k else lookup[i]
    decreases |ids|
  {
    if ids != [] {
      var n := |ids| - 1;
      SetIdsSpec(lookup, ids[..n], k);
      assert ids == ids[..n] + [ids[n]];
    }
  }

  lemma {:induction false} SetListsSpec(lookup: map<nat, nat>, lists: seq<seq<nat>>, k: nat)
    ensures forall i :: i in SetLists(lookup, lists, k) <==> i in lookup || InLists(lists, i)
    ensures forall i :: i in SetLists(lookup, lists, k) ==>
              SetLists(lookup, lists, k)[i] == if InLists(lists, i) then k else lookup[i]
    decreases |lists|
  {
    if lists != [] {
      var n := |lists| - 1;
      var front := SetLists(lookup, lists[..n], k);
      SetListsSpec(lookup, lists[..n], k);
      SetIdsSpec(front, lists[n], k);
      forall i ensures InLists(lists, i) <==> InLists(lists[..n], i) || i in lists[n] {
        if InLists(lists, i) {
          var l :| 0 <= l < |lists| && i in lists[l];
          if l < n {
            assert lists[..n][l] == lists[l];
          }
        }
        if InLists(lists[..n], i) {
          var l :| 0 <= l < n && i in lists[..n][l];
          assert lists[l] == lists[..n][l];
        }
      }
    }
  }

  /**
   * Every index the lookup holds points to a bucket that contains it, and
   * every index of every bucket taken is held.
   */
  lemma {:induction false} CountLookupSpec(buckets: map<nat, seq<seq<nat>>>, order: seq<nat>)
    requires forall j :: 0 <= j < |order| ==> order[j] in buckets
    ensures forall i :: i in CountLookup(buckets, order) ==> InBucket(buckets, CountLookup(buckets, order)[i], i)
    ensures forall j, i :: 0 <= j < |order| && InLists(buckets[order[j]], i) ==> i in CountLookup(buckets, order)
    decreases |order|
  {
    if order != [] {
      var n := |order| - 1;
      CountLookupSpec(buckets, order[..n]);
      SetListsSpec(CountLookup(buckets, order[..n]), buckets[order[n]], order[n]);
      forall j, i | 0 <= j < |order| && InLists(buckets[order[j]], i) ensures i in CountLookup(buckets, order) {
        if j < n {
          assert order[..n][j] == order[j];
        }
      }
    }
  }

  /**
   * With buckets that share no index, walked in any key order, the lookup
   * sends exactly the indices of the buckets to the key of the bucket that
   * holds them.
   */
  lemma CountLookupOfDisjoint(buckets: map<nat, seq<seq<nat>>>, order: seq<nat>)
    requires KeyOrder(order, buckets)
    requires DisjointBuckets(buckets)
    ensures forall i :: i in CountLookup(buckets, order) <==> exists k :: InBucket(buckets, k, i)
    ensures forall i, k :: InBucket(buckets, k, i) ==> CountLookup(buckets, order)[i] == k
  {
    CountLookupSpec(buckets, order);
    forall i, k | InBucket(buckets, k, i) ensures i in CountLookup(buckets, order) {
      var j :| 0 <= j < |order| && order[j] == k;
    }
  }

  /**
   * Buckets that share an index: the index keeps the key of the bucket
   * walked last, so the lookup depends on the key order.
   */
  lemma OverlappingBucketsFollowOrder()
    ensures CountLookup(map[1 := [[0]], 2 := [[0]]], [1, 2]) == map[0 := 2]
    ensures CountLookup(map[1 := [[0]], 2 := [[0]]], [2, 1]) == map[0 := 1]
  {
  }

  /** The buckets of `comps2sent` share no index. */
  lemma CompanyGroupsDisjoint<T>(text: seq<T>)
    ensures DisjointBuckets(CompanyGroups(text))
  {
    var m := CompanyGroups(text);
    CompanyGroupsWellFormed(text);
    forall k1, k2, i | InBucket(m, k1, i) && InBucket(m, k2, i) ensures k1 == k2 {
      var l1 :| 0 <= l1 < |m[k1]| && i in m[k1][l1];
      var l2 :| 0 <= l2 < |m[k2]| && i in m[k2][l2];
      IndexInExactlyOneGroup(text, m, i, k1, l1, k2, l2);
    }
  }

  /** The number of records whose text equals that of record `i`, for every record. */
  function SentenceSizes<T(==)>(text: seq<T>): (r: map<nat, nat>)
    ensures forall i: nat :: i in r <==> i < |text|
  {
    map i: nat | i < |text| :: |IndicesOf(text, text[i])|
  }

  /** An index some bucket of `comps2sent` holds is a record index. */
  lemma BucketedIndexIsRecord<T>(text: seq<T>, k: nat, i: nat)
    requires InBucket(CompanyGroups(text), k, i)
    ensures i < |text| && k == |IndicesOf(text, text[i])|
  {
    var m := CompanyGroups(text);
    CompanyGroupsWellFormed(text);
    var l :| 0 <= l < |m[k]| && i in m[k][l];
    GroupOfIndex(text, m, i, k, l);
  }

  /** Every record index sits in the bucket of its sentence's size. */
  lemma RecordIsBucketed<T>(text: seq<T>, i: nat)
    requires i < |text|
    ensures InBucket(CompanyGroups(text), |IndicesOf(text, text[i])|, i)
  {
    var m := CompanyGroups(text);
    var g := IndicesOf(text, text[i]);
    SentenceOfIndexIsBucketed(text, i);
    var l :| 0 <= l < |m[|g|]| && m[|g|][l] == g;
    IndicesOfComplete(text, text[i], i);
  }

  /**
   * Inverting the result of `comps2sent`, in any key order, sends every
   * record index to the number of records sharing its sentence, and holds
   * no other index.
   */
  lemma LookupOfCompanyGroups<T>(text: seq<T>, order: seq<nat>)
    requires KeyOrder(order, CompanyGroups(text))
    ensures CountLookup(CompanyGroups(text), order) == SentenceSizes(text)
  {
    var lookup := CountLookup(CompanyGroups(text), order);
    LookupSentenceSizes(text, order);
    assert lookup.Keys == SentenceSizes(text).Keys;
  }

  /** The two halves of `LookupOfCompanyGroups`: the keys, then the values. */
  lemma LookupSentenceSizes<T>(text: seq<T>, order: seq<nat>)
    requires KeyOrder(order, CompanyGroups(text))
    ensures forall i: nat :: i in CountLookup(CompanyGroups(text), order) <==> i < |text|
    ensures forall i :: 0 <= i < |text| ==> CountLookup(CompanyGroups(text), order)[i] == |IndicesOf(text, text[i])|
  {
    var m := CompanyGroups(text);
    var lookup := CountLookup(m, order);
    CompanyGroupsDisjoint(text);
    CountLookupOfDisjoint(m, order);
    forall i | i in lookup ensures i < |text| {
      var k :| InBucket(m, k, i);
      BucketedIndexIsRecord(text, k, i);
    }
    forall i | 0 <= i < |text| ensures i in lookup && lookup[i] == |IndicesOf(text, text[i])| {
      RecordIsBucketed(text, i);
    }
  }

  /** The errors whose index has count `c`, in their order. */
  function WithCount<X>(errors: seq<ErrorRecord<X>>, lookup: map<nat, nat>, c: nat): (r: seq<ErrorRecord<X>>)
    requires forall k :: 0 <= k < |errors| ==> errors[k].index in lookup
    ensures forall e :: e in r ==> e in errors && lookup[e.index] == c
    ensures forall k :: 0 <= k < |errors| && lookup[errors[k].index] == c ==> errors[k] in r
    decreases |errors|
  {
    if errors == [] then []
    else
      var n := |errors| - 1;
      assert errors == errors[..n] + [errors[n]];
      WithCount(errors[..n], lookup, c) + if lookup[errors[n].index] == c then [errors[n]] else []
  }

  /** The error dictionary built by the second loop of `sent_type_errors`. */
  function Stratify<X>(errors: seq<ErrorRecord<X>>, lookup: map<nat, nat>): map<nat, seq<ErrorRecord<X>>>
    requires forall k :: 0 <= k < |errors| ==> errors[k].index in lookup
    decreases |errors|
  {
    if errors == [] then map[]
    else
      var n := |errors| - 1;
      var m := Stratify(errors[..n], lookup);
      var c := lookup[errors[n].index];
      m[c := (if c in m then m[c] else []) + [errors[n]]]
  }

  /**
   * The dictionary has a key for each count some error has, and under it
   * exactly the errors of that count, in their original order.
   */
  lemma {:induction false} StratifyIsFilter<X>(errors: seq<ErrorRecord<X>>, lookup: map<nat, nat>)
    requires forall k :: 0 <= k < |errors| ==> errors[k].index in lookup
    ensures forall c :: c in Stratify(errors, lookup) <==> WithCount(errors, lookup, c) != []
    ensures forall c :: c in Stratify(errors, lookup) ==> Stratify(errors, lookup)[c] == WithCount(errors, lookup, c)
    decreases |errors|
  {
    if errors != [] {
      var n := |errors| - 1;
      StratifyIsFilter(errors[..n], lookup);
    }
  }

  /** `{k: len(v) for k, v in d.items()}`. */
  function Distribution<X>(details: map<nat, seq<ErrorRecord<X>>>): (r: map<nat, nat>)
    ensures forall k :: k in r <==> k in details
    ensures forall k :: k in details ==> r[k] == |details[k]|
  {
    map k | k in details :: |details[k]|
  }

  /** Some element of a non-empty set. */
  ghost function Pick(keys: set<nat>): (k: nat)
    requires keys != {}
    ensures k in keys
  {
    var k :| k in keys; k
  }

  /** The sum of the values of `d` over `keys`. */
  ghost function SumOver(d: map<nat, nat>, keys: set<nat>): nat
    requires keys <= d.Keys
    decreases keys
  {
    if keys == {} then 0 else var k := Pick(keys); d[k] + SumOver(d, keys - {k})
  }

  /** The sum of all values of `d`. */
  ghost function Total(d: map<nat, nat>): nat {
    SumOver(d, d.Keys)
  }

  /** The sum does not depend on which key is taken out first. */
  lemma {:induction false} SumOverRemove(d: map<nat, nat>, keys: set<nat>, k: nat)
    requires keys <= d.Keys && k in keys
    ensures SumOver(d, keys) == d[k] + SumOver(d, keys - {k})
    decreases keys
  {
    var p := Pick(keys);
    if p != k {
      SumOverRemove(d, keys - {p}, k);
      SumOverRemove(d, keys - {k}, p);
      assert keys - {p} - {k} == keys - {k} - {p};
    }
  }

  /** The sum only depends on the values over `keys`. */
  lemma {:induction false} SumOverAgree(d1: map<nat, nat>, d2: map<nat, nat>, keys: set<nat>)
    requires keys <= d1.Keys && keys <= d2.Keys
    requires forall k :: k in keys ==> d1[k] == d2[k]
    ensures SumOver(d1, keys) == SumOver(d2, keys)
    decreases keys
  {
    if keys != {} {
      SumOverAgree(d1, d2, keys - {Pick(keys)});
    }
  }

  /** The error counts of the distribution add up to the number of errors. */
  lemma {:induction false} StratifyTotal<X>(errors: seq<ErrorRecord<X>>, lookup: map<nat, nat>)
    requires forall k :: 0 <= k < |errors| ==> errors[k].index in lookup
    ensures Total(Distribution(Stratify(errors, lookup))) == |errors|
    decreases |errors|
  {
    if errors != [] {
      var n := |errors| - 1;
      var front := Stratify(errors[..n], lookup);
      var c := lookup[errors[n].index];
      var d := Distribution(front);
      var d' := Distribution(Stratify(errors, lookup));
      StratifyTotal(errors[..n], lookup);
      assert d'.Keys == d.Keys + {c};
      SumOverRemove(d', d'.Keys, c);
      assert d'.Keys - {c} == d.Keys - {c};
      SumOverAgree(d', d, d.Keys - {c});
      if c in d {
        SumOverRemove(d, d.Keys, c);
      } else {
        assert d.Keys - {c} == d.Keys;
      }
    }
  }

  /**
   * `sent_type_errors`: inverts the buckets (walked in the dictionary's
   * key order `countOrder`) into an index-to-count lookup, then files each
   * error under its index's count. An error whose index no bucket holds
   * is a failed lookup in the source.
   */
  method SentTypeErrors<X>(topErrors: seq<ErrorRecord<X>>, compscountIds: map<nat, seq<seq<nat>>>,
                           countOrder: seq<nat>)
    returns (compsErrors: map<nat, seq<ErrorRecord<X>>>)
    requires KeyOrder(countOrder, compscountIds)
    requires forall k :: 0 <= k < |topErrors| ==> topErrors[k].index in CountLookup(compscountIds, countOrder)
    ensures compsErrors == Stratify(topErrors, CountLookup(compscountIds, countOrder))
  {
    var idsCompscount: map<nat, nat> := map[];
    for p := 0 to |countOrder|
      invariant idsCompscount == CountLookup(compscountIds, countOrder[..p])
    {
      var compscount := countOrder[p];
      var idsList := compscountIds[compscount];
      ghost var before := idsCompscount;
      for q := 0 to |idsList|
        invariant idsCompscount == SetLists(before, idsList[..q], compscount)
      {
        var ids := idsList[q];
        ghost var inner := idsCompscount;
        for r := 0 to |ids|
          invariant idsCompscount == SetIds(inner, ids[..r], compscount)
        {
          idsCompscount := idsCompscount[ids[r] := compscount];
          assert ids[..r + 1][..r] == ids[..r];
        }
        assert ids[..|ids|] == ids;
        assert idsList[..q + 1][..q] == idsList[..q];
      }
      assert idsList[..|idsList|] == idsList;
      assert countOrder[..p + 1][..p] == countOrder[..p];
    }
    assert countOrder[..|countOrder|] == countOrder;
    compsErrors := map[];
    for k := 0 to |topErrors|
      invariant compsErrors == Stratify(topErrors[..k], idsCompscount)
    {
      var error := topErrors[k];
      var sentId := error.index;
      var compCount := idsCompscount[sentId];
      var errors := if compCount in compsErrors then compsErrors[compCount] else [];
      errors := errors + [error];
      compsErrors := compsErrors[compCount := errors];
      assert topErrors[..k + 1][..k] == topErrors[..k];
    }
    assert topErrors[..|topErrors|] == topErrors;
  }
}
