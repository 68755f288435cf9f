/**
 * Token-level helpers: the sliding-window n-gram builder used as a
 * scikit-learn analyzer, and the longest-text measure used to size LSTM input.
 */
module NGrams {

  /** `' '.join(words)`: the words separated by single spaces. */
  function Join(words: seq<string>): (r: string)
    ensures |words| == 1 ==> r == words[0]
    ensures |words| == 0 ==> r == ""
  {
    if |words| == 0 then ""
    else if |words| == 1 then words[0]
    else words[0] + " " + Join(words[1..])
  }

  /**
   * The n-grams of `tokens`: one string per window of `n` consecutive
   * tokens, left to right, each window joined by single spaces.
   */
  function NGramsOf(tokens: seq<string>, n: nat): (r: seq<string>)
    requires n >= 1
    ensures |r| == if |tokens| >= n then |tokens| - n + 1 else 0
    ensures forall j :: 0 <= j < |r| ==> r[j] == Join(tokens[j..j + n])
    decreases |tokens|
  {
    if |tokens| < n then []
    else
      var rest := NGramsOf(tokens[1..], n);
      WindowShift(tokens, n, rest);
      [Join(tokens[..n])] + rest
  }

  /** The windows of `tokens[1..]` are the windows of `tokens` shifted by one. */
  lemma WindowShift(tokens: seq<string>, n: nat, rest: seq<string>)
    requires n >= 1 && |tokens| >= n
    requires |rest| == |tokens| - n
    requires forall j :: 0 <= j < |rest| ==> rest[j] == Join(tokens[1..][j..j + n])
    ensures forall j :: 0 <= j < |rest| ==> rest[j] == Join(tokens[j + 1..j + 1 + n])
  {
    forall j | 0 <= j < |rest| ensures rest[j] == Join(tokens[j + 1..j + 1 + n]) {
      assert tokens[1..][j..j + n] == tokens[j + 1..j + 1 + n];
    }
  }

  /**
   * `get_n_grams`: pops the head of a copy of the tokens until fewer than
   * `n` remain, emitting the window starting at the head each time.
   * With n <= 0 the source pops from an empty list and fails.
   */
  method GetNGrams(tempTokens: seq<string>, n: int) returns (gramTokens: seq<string>)
    requires n >= 1
    ensures gramTokens == NGramsOf(tempTokens, n)
    ensures |gramTokens| == if |tempTokens| >= n then |tempTokens| - n + 1 else 0
    ensures forall j :: 0 <= j < |gramTokens| ==> gramTokens[j] == Join(tempTokens[j..j + n])
  {
    var tokenCopy := tempTokens;
    gramTokens := [];
    while |tokenCopy| >= n
      invariant gramTokens + NGramsOf(tokenCopy, n) == NGramsOf(tempTokens, n)
      decreases |tokenCopy|
    {
      var nList: seq<string> := [];
      for i := 0 to n
        invariant nList == tokenCopy[..i]
      {
        nList := nList + [tokenCopy[i]];
      }
      assert NGramsOf(tokenCopy, n) == [Join(nList)] + NGramsOf(tokenCopy[1..], n);
      tokenCopy := tokenCopy[1..];
      gramTokens := gramTokens + [Join(nList)];
    }
  }

  /** All n-grams for n = lo, lo+1, ..., hi, grouped by n in that order. */
  function GramsInRange(tokens: seq<string>, lo: int, hi: int): (r: seq<string>)
    requires lo >= 1 || lo > hi
    decreases hi - lo
  {
    if lo > hi then [] else NGramsOf(tokens, lo) + GramsInRange(tokens, lo + 1, hi)
  }

  /** Extending the n-grams gathered so far by those of the next n. */
  lemma GramsInRangeStep(tokens: seq<string>, acc: seq<string>, grams: seq<string>, lo: int, n: int, hi: int)
    requires 1 <= lo <= n <= hi
    requires acc + GramsInRange(tokens, n, hi) == GramsInRange(tokens, lo, hi)
    requires grams == NGramsOf(tokens, n)
    ensures (acc + grams) + GramsInRange(tokens, n + 1, hi) == GramsInRange(tokens, lo, hi)
  {
    var rest := GramsInRange(tokens, n + 1, hi);
    assert GramsInRange(tokens, n, hi) == grams + rest;
    assert (acc + grams) + rest == acc + (grams + rest);
  }

  /** Unigrams are the tokens themselves. */
  lemma {:induction false} UnigramsAreTokens(tokens: seq<string>)
    ensures NGramsOf(tokens, 1) == tokens
    decreases |tokens|
  {
    if |tokens| >= 1 {
      UnigramsAreTokens(tokens[1..]);
      assert tokens == [tokens[0]] + tokens[1..];
    }
  }

  /** A range `get_n_grams` can serve: it starts at 1 or above, or is empty. */
  predicate ValidRange(nRange: (int, int)) {
    nRange.0 >= 1 || nRange.0 > nRange.1
  }

  /**
   * The n-grams `ngrams` produces for one token list: the list itself for
   * the range (1, 1), all n-grams over the range otherwise.
   */
  function RangeGrams(tokens: seq<string>, nRange: (int, int)): seq<string>
    requires nRange == (1, 1) || ValidRange(nRange)
  {
    if nRange == (1, 1) then tokens else GramsInRange(tokens, nRange.0, nRange.1)
  }

  /**
   * The `(1, 1)` shortcut in `ngrams`, which hands each token list back
   * unchanged, agrees with the general path over the range 1..1, so every
   * list gets the n-grams of every n in the range.
   */
  lemma UnitRangeShortcutAgrees(tokens: seq<string>, nRange: (int, int))
    requires ValidRange(nRange)
    ensures RangeGrams(tokens, nRange) == GramsInRange(tokens, nRange.0, nRange.1)
  {
    if nRange == (1, 1) {
      UnigramsAreTokens(tokens);
      assert GramsInRange(tokens, 1, 1) == NGramsOf(tokens, 1) + [];
    }
  }

  /** The number of windows of `n` consecutive tokens among `m` tokens, for each n = lo..hi. */
  function WindowCount(m: int, lo: int, hi: int): int
    decreases hi - lo
  {
    if lo > hi then 0 else (if m - lo + 1 > 0 then m - lo + 1 else 0) + WindowCount(m, lo + 1, hi)
  }

  /** Over any range of n from 1 up, one n-gram per window. */
  lemma {:induction false} GramsInRangeCount(tokens: seq<string>, lo: int, hi: int)
    requires lo >= 1
    ensures |GramsInRange(tokens, lo, hi)| == WindowCount(|tokens|, lo, hi)
    decreases hi - lo
  {
    if lo <= hi {
      GramsInRangeCount(tokens, lo + 1, hi);
    }
  }

  /**
   * The window count in closed form, an arithmetic series; it holds while
   * no n exceeds the token count by more than one, so that no term is cut to 0.
   */
  lemma {:induction false} WindowCountClosedForm(m: int, lo: int, hi: int)
    requires hi <= m + 1
    ensures 2 * WindowCount(m, lo, hi) == if lo > hi then 0 else (hi - lo + 1) * (2 * m + 2 - lo - hi)
    decreases hi - lo
  {
    if lo <= hi {
      WindowCountClosedForm(m, lo + 1, hi);
      var a := hi - lo;
      var b := 2 * m + 2 - lo - hi;
      assert 2 * WindowCount(m, lo + 1, hi) == a * (b - 1);
      assert a * (b - 1) == a * b - a;
      assert (a + 1) * b == a * b + b;
    }
  }

  /**
   * The number of n-grams over a range, in closed form, for ranges whose
   * largest n is at most the token count plus one.
   */
  lemma GramsInRangeLength(tokens: seq<string>, lo: int, hi: int)
    requires lo >= 1
    requires hi <= |tokens| + 1
    ensures 2 * |GramsInRange(tokens, lo, hi)|
            == if lo > hi then 0 else (hi - lo + 1) * (2 * |tokens| + 2 - lo - hi)
  {
    GramsInRangeCount(tokens, lo, hi);
    WindowCountClosedForm(|tokens|, lo, hi);
  }

  /**
   * `ngrams`: for each token list, the list itself when the range is
   * (1, 1), otherwise every n-gram for each n in the inclusive range.
   * A range starting at n <= 0 makes `get_n_grams` fail unless no
   * n-gram is ever requested.
   */
  method Ngrams(tokenList: seq<seq<string>>, nRange: (int, int)) returns (allNGrams: seq<seq<string>>)
    requires tokenList == [] || nRange == (1, 1) || ValidRange(nRange)
    ensures |allNGrams| == |tokenList|
    ensures forall k :: 0 <= k < |tokenList| ==> allNGrams[k] == RangeGrams(tokenList[k], nRange)
  {
    allNGrams := [];
    for k := 0 to |tokenList|
      invariant |allNGrams| == k
      invariant forall j :: 0 <= j < k ==> allNGrams[j] == RangeGrams(tokenList[j], nRange)
    {
      var tokens := tokenList[k];
      if nRange == (1, 1) {
        allNGrams := allNGrams + [tokens];
      } else {
        var allTokens: seq<string> := [];
        var n := nRange.0;
        while n <= nRange.1
          invariant nRange.0 <= n <= nRange.1 + 1 || n == nRange.0 > nRange.1
          invariant allTokens + GramsInRange(tokens, n, nRange.1) == GramsInRange(tokens, nRange.0, nRange.1)
          decreases nRange.1 - n
        {
          var grams := GetNGrams(tokens, n);
          GramsInRangeStep(tokens, allTokens, grams, nRange.0, n, nRange.1);
          allTokens := allTokens + grams;
          n := n + 1;
        }
        allNGrams := allNGrams + [allTokens];
      }
    }
  }

  /**
   * `max_length`: the largest number of tokens the tokenizer gives for
   * any of the texts, 0 for no texts.
   */
  method MaxLength(texts: seq<string>, tokenize: string -> seq<string>) returns (maxTokenLength: nat)
    ensures forall t :: t in texts ==> |tokenize(t)| <= maxTokenLength
    ensures maxTokenLength == 0 || exists t :: t in texts && |tokenize(t)| == maxTokenLength
  {
    maxTokenLength := 0;
    for k := 0 to |texts|
      invariant forall j :: 0 <= j < k ==> |tokenize(texts[j])| <= maxTokenLength
      invariant maxTokenLength == 0 || exists j :: 0 <= j < k && |tokenize(texts[j])| == maxTokenLength
    {
      var tokens := tokenize(texts[k]);
      if |tokens| > maxTokenLength {
        maxTokenLength := |tokens|;
      }
    }
  }
}
