/** The order-based statistics of the statistics page (`median`, `mode`,
    `sortMapByValue`), the order in which `getStats` computes them, and the
    branch logic of `homePage`. Numbers are modelled as `real`: exact values
    standing for Go's `float64`, without rounding, infinities or NaN. */
module Statistics {
  import opened Wrappers
  import opened Sorting
  import opened StatisticsInput

  function Id(x: real): real { x }

  predicate Ascending(s: seq<real>) {
    SortedBy(s, Id)
  }

  // ---------------------------------------------------------------- median

  /** `median` of a sorted, non-empty slice. */
  function Median(s: seq<real>): (m: real)
    requires |s| > 0
    ensures m == (s[(|s| - 1) / 2] + s[|s| / 2]) / 2.0
  {
    var middle := |s| / 2;
    var result := s[middle];
    if |s| % 2 == 0 then (result + s[middle - 1]) / 2.0 else result
  }

  /** How many elements of `s` satisfy `p`. */
  function Count(s: seq<real>, p: real -> bool): (n: nat)
    ensures n <= |s|
  {
    if s == [] then 0 else (if p(s[0]) then 1 else 0) + Count(s[1..], p)
  }

  lemma {:induction false} CountAppend(a: seq<real>, b: seq<real>, p: real -> bool)
    ensures Count(a + b, p) == Count(a, p) + Count(b, p)
  {
    if a == [] {
      assert a + b == b;
    } else {
      assert (a + b)[1..] == a[1..] + b;
      CountAppend(a[1..], b, p);
    }
  }

  lemma {:induction false} CountAll(s: seq<real>, p: real -> bool)
    requires forall i :: 0 <= i < |s| ==> p(s[i])
    ensures Count(s, p) == |s|
  {
    if s != [] {
      CountAll(s[1..], p);
    }
  }

  /** At least `k` elements satisfy `p` when its first `k` do. */
  lemma CountPrefix(s: seq<real>, k: nat, p: real -> bool)
    requires k <= |s|
    requires forall i :: 0 <= i < k ==> p(s[i])
    ensures Count(s, p) >= k
  {
    assert s == s[..k] + s[k..];
    CountAppend(s[..k], s[k..], p);
    CountAll(s[..k], p);
  }

  /** At least `|s| - k` elements satisfy `p` when all from `k` on do. */
  lemma CountSuffix(s: seq<real>, k: nat, p: real -> bool)
    requires k <= |s|
    requires forall i :: k <= i < |s| ==> p(s[i])
    ensures Count(s, p) >= |s| - k
  {
    assert s == s[..k] + s[k..];
    CountAppend(s[..k], s[k..], p);
    CountAll(s[k..], p);
  }

  /** In a sorted slice the median has at least half the elements at or
      below it and at least half at or above it. */
  lemma MedianSplitsSorted(s: seq<real>)
    requires |s| > 0 && Ascending(s)
    ensures 2 * Count(s, x => x <= Median(s)) >= |s|
    ensures 2 * Count(s, x => x >= Median(s)) >= |s|
  {
    var m := Median(s);
    var lo, hi := (|s| - 1) / 2, |s| / 2;
    assert Id(s[lo]) <= Id(s[hi]);
    assert forall i :: 0 <= i <= lo ==> Id(s[i]) <= Id(s[lo]);
    assert forall i :: hi <= i < |s| ==> Id(s[hi]) <= Id(s[i]);
    CountPrefix(s, lo + 1, x => x <= m);
    CountSuffix(s, hi, x => x >= m);
  }

  // ------------------------------------------------------------------ mode

  /** `frequencyCounts` after the loop over `numbers`: `key` stands for
      `strconv.FormatFloat(x, 'f', 1, 64)`. */
  function Frequencies(numbers: seq<real>, key: real -> string): map<string, nat> {
    if numbers == [] then map[]
    else
      var counts := Frequencies(numbers[..|numbers| - 1], key);
      var k := key(numbers[|numbers| - 1]);
      counts[k := (if k in counts then counts[k] else 0) + 1]
  }

  /** How many numbers have key `k`. */
  function Occurrences(numbers: seq<real>, key: real -> string, k: string): nat {
    if numbers == [] then 0
    else Occurrences(numbers[..|numbers| - 1], key, k) + (if key(numbers[|numbers| - 1]) == k then 1 else 0)
  }

  /** The counts hold one entry per key that occurs, and each entry is the
      number of occurrences of its key. */
  lemma {:induction false} FrequenciesCount(numbers: seq<real>, key: real -> string)
    ensures forall k :: k in Frequencies(numbers, key) <==> Occurrences(numbers, key, k) > 0
    ensures forall k :: k in Frequencies(numbers, key) ==> Frequencies(numbers, key)[k] == Occurrences(numbers, key, k)
  {
    if numbers != [] {
      FrequenciesCount(numbers[..|numbers| - 1], key);
    }
  }

  /** The occurrences of a list of distinct keys that covers every key add
      up to the number of numbers. */
  lemma {:induction false} OccurrencesSum(numbers: seq<real>, key: real -> string, keys: seq<string>)
    requires forall i, j :: 0 <= i < j < |keys| ==> keys[i] != keys[j]
    requires forall i :: 0 <= i < |numbers| ==> key(numbers[i]) in keys
    ensures SumOccurrences(numbers, key, keys) == |numbers|
  {
    if numbers != [] {
      var init := numbers[..|numbers| - 1];
      var k := key(numbers[|numbers| - 1]);
      assert numbers == init + [numbers[|numbers| - 1]];
      OccurrencesSum(init, key, keys);
      SumStep(init, numbers[|numbers| - 1], key, keys);
      CountDistinct(keys, k);
    } else {
      SumOfNone(key, keys);
    }
  }

  lemma {:induction false} SumOfNone(key: real -> string, keys: seq<string>)
    ensures SumOccurrences([], key, keys) == 0
  {
    if keys != [] {
      SumOfNone(key, keys[1..]);
    }
  }

  function SumOccurrences(numbers: seq<real>, key: real -> string, keys: seq<string>): nat {
    if keys == [] then 0 else Occurrences(numbers, key, keys[0]) + SumOccurrences(numbers, key, keys[1..])
  }

  function Hits(keys: seq<string>, k: string): nat {
    if keys == [] then 0 else (if keys[0] == k then 1 else 0) + Hits(keys[1..], k)
  }

  lemma {:induction false} SumStep(init: seq<real>, x: real, key: real -> string, keys: seq<string>)
    ensures SumOccurrences(init + [x], key, keys) == SumOccurrences(init, key, keys) + Hits(keys, key(x))
  {
    if keys != [] {
      assert (init + [x])[..|init|] == init;
      SumStep(init, x, key, keys[1..]);
    }
  }

  lemma {:induction false} CountDistinct(keys: seq<string>, k: string)
    requires forall i, j :: 0 <= i < j < |keys| ==> keys[i] != keys[j]
    requires k in keys
    ensures Hits(keys, k) == 1
  {
    if keys[0] == k {
      NoHits(keys[1..], k);
    } else {
      CountDistinct(keys[1..], k);
    }
  }

  lemma {:induction false} NoHits(keys: seq<string>, k: string)
    requires k !in keys
    ensures Hits(keys, k) == 0
  {
    if keys != [] {
      NoHits(keys[1..], k);
    }
  }

  /** A `pair`: a key and its count. */
  datatype Pair = Pair(key: string, value: nat)

  function PairCount(p: Pair): real { p.value as real }

  /** `p` lists each entry of `m` exactly once. */
  predicate ListsEntries(p: seq<Pair>, m: map<string, nat>) {
    && |p| == |m|
    && (forall i :: 0 <= i < |p| ==> p[i].key in m && m[p[i].key] == p[i].value)
    && (forall i, j :: 0 <= i < j < |p| ==> p[i].key != p[j].key)
    && (forall k :: k in m ==> exists i :: 0 <= i < |p| && p[i].key == k)
  }

  /** `sortMapByValue`: the entries of `m` in Go's (unspecified) map
      iteration order, here an arbitrary choice, then sorted by count. */
  method SortMapByValue(m: map<string, nat>) returns (p: seq<Pair>)
    ensures ListsEntries(p, m)
    ensures SortedBy(p, PairCount)
  {
    var entries := MapEntries(m);
    p := SortBy(entries, PairCount);
    assert Distinct(entries);
    DistinctPermutation(entries, p);
    forall i | 0 <= i < |p|
      ensures p[i].key in m && m[p[i].key] == p[i].value
    {
      assert p[i] in multiset(entries);
    }
    forall k | k in m
      ensures exists i :: 0 <= i < |p| && p[i].key == k
    {
      var i :| 0 <= i < |entries| && entries[i].key == k;
      assert entries[i] in multiset(p);
    }
  }

  /** The `for k, v := range m` loop filling the pair list, in an arbitrary
      order. */
  method MapEntries(m: map<string, nat>) returns (entries: seq<Pair>)
    ensures ListsEntries(entries, m)
  {
    entries := [];
    var rest := m.Keys;
    while rest != {}
      invariant rest <= m.Keys
      invariant |entries| + |rest| == |m|
      invariant forall i :: 0 <= i < |entries| ==>
        entries[i].key in m && m[entries[i].key] == entries[i].value && entries[i].key !in rest
      invariant forall i, j :: 0 <= i < j < |entries| ==> entries[i].key != entries[j].key
      invariant forall k :: k in m && k !in rest ==> exists i :: 0 <= i < |entries| && entries[i].key == k
      decreases |rest|
    {
      var k :| k in rest;
      ghost var before := entries;
      entries := entries + [Pair(k, m[k])];
      rest := rest - {k};
      forall k' | k' in m && k' !in rest
        ensures exists i :: 0 <= i < |entries| && entries[i].key == k'
      {
        if k' == k {
          assert entries[|before|].key == k';
        } else {
          var i :| 0 <= i < |before| && before[i].key == k';
          assert entries[i].key == k';
        }
      }
    }
    assert forall k :: k in m ==> k !in rest;
  }

  function SumValues(p: seq<Pair>): nat {
    if p == [] then 0 else p[0].value + SumValues(p[1..])
  }

  function Keys(p: seq<Pair>): (ks: seq<string>)
    ensures |ks| == |p| && forall i :: 0 <= i < |p| ==> ks[i] == p[i].key
  {
    if p == [] then [] else [p[0].key] + Keys(p[1..])
  }

  lemma {:induction false} OccursAt(numbers: seq<real>, key: real -> string, i: nat)
    requires i < |numbers|
    ensures Occurrences(numbers, key, key(numbers[i])) > 0
  {
    if i < |numbers| - 1 {
      OccursAt(numbers[..|numbers| - 1], key, i);
    }
  }

  lemma {:induction false} SumValuesIsSumOccurrences(numbers: seq<real>, key: real -> string, p: seq<Pair>)
    requires forall i :: 0 <= i < |p| ==> p[i].value == Occurrences(numbers, key, p[i].key)
    ensures SumValues(p) == SumOccurrences(numbers, key, Keys(p))
  {
    if p != [] {
      SumValuesIsSumOccurrences(numbers, key, p[1..]);
      assert Keys(p)[1..] == Keys(p[1..]);
    }
  }

  /** However the counts are listed, they add up to the number of numbers. */
  lemma CountsSumToLength(numbers: seq<real>, key: real -> string, p: seq<Pair>)
    requires ListsEntries(p, Frequencies(numbers, key))
    ensures SumValues(p) == |numbers|
  {
    var f := Frequencies(numbers, key);
    FrequenciesCount(numbers, key);
    SumValuesIsSumOccurrences(numbers, key, p);
    forall i | 0 <= i < |numbers|
      ensures key(numbers[i]) in Keys(p)
    {
      OccursAt(numbers, key, i);
      var j :| 0 <= j < |p| && p[j].key == key(numbers[i]);
      assert Keys(p)[j] == key(numbers[i]);
    }
    OccurrencesSum(numbers, key, Keys(p));
  }

  /** The counting loop of `mode`: `frequencyCounts[key]++` for each number
      builds the recursive `Frequencies`. */
  method CountKeys(numbers: seq<real>, key: real -> string) returns (frequencyCounts: map<string, nat>)
    ensures frequencyCounts == Frequencies(numbers, key)
  {
    frequencyCounts := map[];
    for i := 0 to |numbers|
      invariant frequencyCounts == Frequencies(numbers[..i], key)
    {
      assert numbers[..i + 1][..i] == numbers[..i];
      var x := key(numbers[i]);
      frequencyCounts := frequencyCounts[x := (if x in frequencyCounts then frequencyCounts[x] else 0) + 1];
    }
    assert numbers[..|numbers|] == numbers;
  }

  /** `k` is a key whose count is maximal. */
  predicate IsModalKey(numbers: seq<real>, key: real -> string, k: string) {
    var f := Frequencies(numbers, key);
    k in f && forall k' :: k' in f ==> f[k'] <= f[k]
  }

  /** The part of `mode` past its guard: count the keys, sort the pairs by
      count and take the key of the last pair. Which of several keys with
      the same count comes last is left open, as Go's map order and unstable
      sort leave it. */
  method ModalKey(numbers: seq<real>, key: real -> string) returns (k: string)
    requires |numbers| > 0
    ensures IsModalKey(numbers, key, k)
  {
    var frequencyCounts := CountKeys(numbers, key);
    assert key(numbers[0]) in frequencyCounts by {
      FrequenciesCount(numbers, key);
      OccursAt(numbers, key, 0);
    }
    var sortedCounts := SortMapByValue(frequencyCounts);
    k := sortedCounts[|sortedCounts| - 1].key;
    LastIsLargest(sortedCounts, frequencyCounts);
  }

  /** The last entry of a listing sorted by count has a maximal count. */
  lemma LastIsLargest(p: seq<Pair>, m: map<string, nat>)
    requires ListsEntries(p, m) && SortedBy(p, PairCount) && |p| > 0
    ensures var k := p[|p| - 1].key; k in m && forall k' :: k' in m ==> m[k'] <= m[k]
  {
    var last := |p| - 1;
    var top := p[last];
    assert top.key in m && m[top.key] == top.value;
    forall k' | k' in m
      ensures m[k'] <= top.value
    {
      var i :| 0 <= i < |p| && p[i].key == k';
      assert m[k'] == p[i].value;
      if i < last {
        assert PairCount(p[i]) <= PairCount(top);
      }
    }
  }

  /** Some number has the key exactly when the key has occurrences. */
  lemma {:induction false} OccurrenceWitness(numbers: seq<real>, key: real -> string, k: string)
    requires Occurrences(numbers, key, k) > 0
    ensures exists i :: 0 <= i < |numbers| && key(numbers[i]) == k
  {
    var last := |numbers| - 1;
    if key(numbers[last]) != k {
      OccurrenceWitness(numbers[..last], key, k);
      var i :| 0 <= i < last && key(numbers[..last][i]) == k;
      assert key(numbers[i]) == k;
    }
  }

  /** `ParseFloat` reads back every `FormatFloat` output. */
  ghost predicate KeysParse(key: real -> string, parse: string -> Option<real>) {
    forall x :: parse(key(x)).Some?
  }

  /** A modal key is the formatted form of one of the numbers, so when
      formatted numbers always parse, the `log.Fatal` in `mode` cannot run. */
  lemma ModalKeyParses(numbers: seq<real>, key: real -> string, parse: string -> Option<real>, k: string)
    requires KeysParse(key, parse) && IsModalKey(numbers, key, k)
    ensures ParseKey(k, parse).Success?
  {
    FrequenciesCount(numbers, key);
    OccurrenceWitness(numbers, key, k);
    var i :| 0 <= i < |numbers| && key(numbers[i]) == k;
    var x := numbers[i];
    assert parse(key(x)).Some?;
    assert parse(k) == parse(key(x));
  }

  /** `strconv.ParseFloat` of the modal key; a failure is the `log.Fatal`
      that ends the server, carrying the key. */
  function ParseKey(k: string, parse: string -> Option<real>): Result<real, string> {
    match parse(k)
    case Some(x) => Success(x)
    case None => Failure(k)
  }

  /** `mode`: the count itself for zero or one number, otherwise the value of
      a key with maximal count. */
  method Mode(numbers: seq<real>, key: real -> string, parse: string -> Option<real>)
    returns (mode: Result<real, string>)
    ensures |numbers| <= 1 ==> mode == Success(|numbers| as real)
    ensures |numbers| > 1 ==> exists k :: IsModalKey(numbers, key, k) && mode == ParseKey(k, parse)
    ensures KeysParse(key, parse) ==> mode.Success?
  {
    if |numbers| <= 1 {
      return Success(|numbers| as real);
    }
    var k := ModalKey(numbers, key);
    mode := ParseKey(k, parse);
    if KeysParse(key, parse) {
      ModalKeyParses(numbers, key, parse, k);
    }
  }

  /** With three fives and one six the mode is unambiguous: whatever the
      tie-break, the chosen key is that of 5, provided the keys of 5 and 6
      differ. */
  lemma UnambiguousMode(key: real -> string, k: string)
    requires key(5.0) != key(6.0)
    requires IsModalKey([5.0, 5.0, 5.0, 6.0], key, k)
    ensures k == key(5.0)
  {
    var five, six := key(5.0), key(6.0);
    assert [5.0][..0] == [];
    assert Frequencies([5.0], key) == map[five := 1];
    assert [5.0, 5.0][..1] == [5.0];
    assert Frequencies([5.0, 5.0], key) == map[five := 2];
    assert [5.0, 5.0, 5.0][..2] == [5.0, 5.0];
    assert Frequencies([5.0, 5.0, 5.0], key) == map[five := 3];
    assert [5.0, 5.0, 5.0, 6.0][..3] == [5.0, 5.0, 5.0];
    var f := Frequencies([5.0, 5.0, 5.0, 6.0], key);
    assert f == map[five := 3, six := 1];
    assert f[k] >= f[five];
  }

  /** The median of `1, 2, 3, 4` is the mean of the two middle values. */
  lemma EvenMedianExample()
    ensures Median([1.0, 2.0, 3.0, 4.0]) == 2.5
  {
  }

  // ------------------------------------------------------------- getStats

  /** The order-based fields of `statistics`; the mean and standard deviation
      are float arithmetic and not part of this model. */
  datatype Stats = Stats(numbers: seq<real>, median: real, mode: real)

  /** `getStats`: sort the numbers in place, then take the median and the
      mode of the sorted slice. A failure is the `log.Fatal` inside `mode`. */
  method GetStats(numbers: seq<real>, key: real -> string, parse: string -> Option<real>)
    returns (r: Result<Stats, string>)
    requires |numbers| > 0
    ensures r.Success? ==>
      && Ascending(r.value.numbers)
      && multiset(r.value.numbers) == multiset(numbers)
      && r.value.median == Median(r.value.numbers)
    ensures |numbers| == 1 ==> r == Success(Stats(numbers, numbers[0], 1.0))
    ensures |numbers| > 1 ==> exists sorted: seq<real>, k ::
      && Ascending(sorted) && multiset(sorted) == multiset(numbers)
      && IsModalKey(sorted, key, k)
      && (r.Success? <==> parse(k).Some?)
      && (r.Success? ==> r.value.numbers == sorted && r.value.mode == parse(k).value)
    ensures KeysParse(key, parse) ==> r.Success?
  {
    var sorted := SortBy(numbers, Id);
    if |numbers| == 1 {
      assert sorted[0] in multiset(numbers);
      assert sorted == numbers;
    }
    var median := Median(sorted);
    var mode := Mode(sorted, key, parse);
    if mode.Failure? {
      return Failure(mode.error);
    }
    r := Success(Stats(sorted, median, mode.value));
  }

  // ------------------------------------------------------------- homePage

  /** What `homePage` writes between the page top and bottom, or the key
      whose `log.Fatal` ends the server. */
  datatype Page = Shown(error: Option<string>, results: Option<Stats>) | Ended(key: string)

  /** The branches of `homePage`: a form error is shown as is; otherwise
      statistics are computed only when `processRequest` reports `ok`, and a
      non-empty message is shown as an error. */
  method HomePage(formError: Option<string>, form: Form, key: real -> string,
                  parse: string -> Option<real>) returns (page: Page)
    ensures formError.Some? ==> page == Shown(formError, None)
    ensures formError.None? ==>
      var tokens := FieldTokens(form); var k := FirstInvalid(tokens, parse);
      && (tokens == [] ==> page == Shown(None, None))
      && (k < |tokens| ==> page == Shown(Some(InvalidMessage(tokens[k])), None))
      && (tokens != [] && k == |tokens| ==>
            page.Ended? ||
            (page.error.None? && page.results.Some? &&
             multiset(page.results.value.numbers) == multiset(Parsed(tokens, parse))))
    ensures KeysParse(key, parse) ==> page.Shown?
  {
    if formError.Some? {
      return Shown(formError, None);
    }
    var numbers, message, ok := ProcessRequest(form, parse);
    if ok {
      var stats := GetStats(numbers, key, parse);
      match stats
      case Success(st) =>
        page := Shown(None, Some(st));
      case Failure(k) =>
        page := Ended(k);
    } else if message != "" {
      page := Shown(Some(message), None);
    } else {
      page := Shown(None, None);
    }
  }
}
