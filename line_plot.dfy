/**
 * The data preparation of the interactive line chart: per-city rollups, the
 * ranking of cities by their largest cumulative count, the default selection,
 * the city-to-rank index, the daily-change series and the y-axis bounds of
 * both chart modes.
 */
module LinePlot {
  import opened Wrappers
  import opened Seqs
  import opened Cases
  import opened CityNest
  import opened StableSort
  import opened Ranking

  /** The rollup of one city: its largest count and its largest unclamped daily change. */
  datatype CitySummary = CitySummary(key: string, max: int, maxNew: int)

  /** Daily changes before clamping: the first count itself, then each count minus the one before it. */
  function RawChanges(c: seq<int>): (d: seq<int>)
    ensures |d| == |c|
  {
    seq(|c|, i requires 0 <= i < |c| => if i == 0 then c[0] else c[i] - c[i - 1])
  }

  /** The rollup of a (non-empty) group. */
  function Rollup(g: Group): (s: CitySummary)
    requires g.values != []
    ensures s.key == g.key
    ensures forall i :: 0 <= i < |g.values| ==> g.values[i].number <= s.max
    ensures exists i :: 0 <= i < |g.values| && g.values[i].number == s.max
    ensures forall i :: 0 <= i < |g.values| ==> RawChanges(Counts(g.values))[i] <= s.maxNew
    ensures exists i :: 0 <= i < |g.values| && RawChanges(Counts(g.values))[i] == s.maxNew
  {
    var c := Counts(g.values);
    var m := MaxOf(c);
    var i :| 0 <= i < |c| && c[i] == m;
    CitySummary(g.key, m, MaxOf(RawChanges(c)))
  }

  function Summaries(groups: seq<Group>): (ss: seq<CitySummary>)
    requires forall i :: 0 <= i < |groups| ==> groups[i].values != []
    ensures |ss| == |groups|
    ensures forall i :: 0 <= i < |groups| ==> ss[i] == Rollup(groups[i])
  {
    seq(|groups|, i requires 0 <= i < |groups| => Rollup(groups[i]))
  }

  /** The comparator `(a, b) => b.value.max - a.value.max` orders by this key, ascending. */
  function NegMax(s: CitySummary): int {
    -s.max
  }

  /** `cityAgg`: the rollups of the nest, sorted by descending maximum. */
  function CityAgg(data: seq<CaseRecord>): (agg: seq<CitySummary>)
    ensures |agg| == |Nest(data)|
    ensures forall i, j :: 0 <= i < j < |agg| ==> agg[i].max >= agg[j].max
  {
    NestNonEmpty(data);
    var ss := Summaries(Nest(data));
    var agg := SortBy(ss, NegMax);
    assert |agg| == |multiset(agg)| == |multiset(ss)| == |ss|;
    assert forall i, j :: 0 <= i < j < |agg| ==> NegMax(agg[i]) <= NegMax(agg[j]);
    agg
  }

  function SummaryKey(s: CitySummary): string {
    s.key
  }

  /** `allCities`: every city, best ranked first. */
  function AllCities(data: seq<CaseRecord>): seq<string> {
    Names(CityAgg(data), SummaryKey)
  }

  /** The cities drawn before the user touches the legend. */
  function DefaultCities(data: seq<CaseRecord>): seq<string> {
    Take(AllCities(data), 5)
  }

  function MaxNews(ss: seq<CitySummary>): (ms: seq<int>)
    ensures |ms| == |ss|
    ensures forall i :: 0 <= i < |ss| ==> ms[i] == ss[i].maxNew
  {
    seq(|ss|, i requires 0 <= i < |ss| => ss[i].maxNew)
  }

  /** `maxNew`: the largest per-city maximum change, or nothing when there are no cities. */
  function MaxNew(data: seq<CaseRecord>): (m: Option<int>)
    ensures m.None? <==> data == []
    ensures m.Some? ==> forall i :: 0 <= i < |CityAgg(data)| ==> CityAgg(data)[i].maxNew <= m.value
    ensures m.Some? ==> exists i :: 0 <= i < |CityAgg(data)| && CityAgg(data)[i].maxNew == m.value
  {
    var agg := CityAgg(data);
    if agg == [] then None else Some(MaxOf(MaxNews(agg)))
  }

  /** The rollups of the nest are pairwise different, since their keys are. */
  lemma SummariesDistinct(data: seq<CaseRecord>)
    ensures forall i :: 0 <= i < |Nest(data)| ==> Nest(data)[i].values != []
    ensures Distinct(Summaries(Nest(data)))
    ensures multiset(CityAgg(data)) == multiset(Summaries(Nest(data)))
    ensures |CityAgg(data)| == |Nest(data)|
  {
    var g := Nest(data);
    NestNonEmpty(data);
    NestKeys(data);
    var ss := Summaries(g);
    var agg := CityAgg(data);
    assert |agg| == |multiset(agg)| == |multiset(ss)| == |ss|;
    forall i, j | 0 <= i < j < |ss| ensures ss[i] != ss[j] {
      assert KeysOf(g)[i] != KeysOf(g)[j];
    }
  }

  /** Every entry of cityAgg is the rollup of one group of the nest. */
  lemma RankedEntry(data: seq<CaseRecord>, i: nat) returns (p: nat)
    requires i < |CityAgg(data)|
    ensures p < |Nest(data)|
    ensures forall k :: 0 <= k < |Nest(data)| ==> Nest(data)[k].values != []
    ensures CityAgg(data)[i] == Summaries(Nest(data))[p] == Rollup(Nest(data)[p])
  {
    SummariesDistinct(data);
    var ss := Summaries(Nest(data));
    assert CityAgg(data)[i] in multiset(ss);
    p :| 0 <= p < |ss| && CityAgg(data)[i] == ss[p];
  }

  /** allCities lists every city of the data exactly once. */
  lemma AllCitiesPermutation(data: seq<CaseRecord>)
    ensures |AllCities(data)| == |Nest(data)|
    ensures Distinct(AllCities(data))
    ensures forall c :: c in AllCities(data) <==> c in Cities(data)
  {
    var g := Nest(data);
    SummariesDistinct(data);
    NestKeys(data);
    assert Names(Summaries(g), SummaryKey) == KeysOf(g);
    RankedNames(Summaries(g), CityAgg(data), SummaryKey);
  }

  /**
   * The ranking: cityAgg is in non-increasing order of maximum count, and
   * cities with equal maxima keep the order in which they first occur in the data.
   */
  lemma AllCitiesRanked(data: seq<CaseRecord>)
    ensures |AllCities(data)| == |CityAgg(data)|
    ensures forall i, j :: 0 <= i < j < |CityAgg(data)| ==> CityAgg(data)[i].max >= CityAgg(data)[j].max
    ensures forall i, j :: 0 <= i < j < |CityAgg(data)| && CityAgg(data)[i].max == CityAgg(data)[j].max ==>
              FirstIndex(Cities(data), AllCities(data)[i]) < FirstIndex(Cities(data), AllCities(data)[j])
  {
    var g := Nest(data);
    SummariesDistinct(data);
    var ss := Summaries(g);
    var agg := CityAgg(data);
    var all := AllCities(data);
    forall i, j | 0 <= i < j < |agg| ensures agg[i].max >= agg[j].max {
      assert NegMax(agg[i]) <= NegMax(agg[j]);
    }
    forall i, j | 0 <= i < j < |agg| && agg[i].max == agg[j].max
      ensures FirstIndex(Cities(data), all[i]) < FirstIndex(Cities(data), all[j])
    {
      StableOrder(agg, ss, NegMax, i, j);
      var p, q := FirstIndex(ss, agg[i]), FirstIndex(ss, agg[j]);
      NestKeys(data);
      assert g[p].key == all[i] && g[q].key == all[j];
    }
  }

  /** Each ranked city's max is the largest count among that city's records. */
  lemma CityMaxIsLargestCount(data: seq<CaseRecord>, i: nat)
    requires i < |CityAgg(data)|
    ensures var s := CityAgg(data)[i];
            && (forall r :: r in CityRecords(data, s.key) ==> r.number <= s.max)
            && (exists r :: r in CityRecords(data, s.key) && r.number == s.max)
  {
    var s := CityAgg(data)[i];
    var p := RankedEntry(data, i);
    var g := Nest(data)[p];
    assert s == Rollup(g);
    assert g.values == CityRecords(data, s.key) by {
      NestValues(data);
    }
    forall r | r in g.values ensures r.number <= s.max {
      var k :| 0 <= k < |g.values| && g.values[k] == r;
    }
    var k :| 0 <= k < |g.values| && g.values[k].number == s.max;
    assert g.values[k] in g.values;
  }

  /** One point of the daily-change view. */
  datatype DailyPoint = DailyPoint(date: int, number: int)
  datatype DailySeries = DailySeries(key: string, values: seq<DailyPoint>)

  function Clamp(x: int): int {
    if x < 0 then 0 else x
  }

  /**
   * A city's daily-change series: the dates of its records, with each count's
   * change from the previous record (the first record's count for the first
   * point), negative changes shown as zero.
   */
  function Deltas(values: seq<CaseRecord>): (ps: seq<DailyPoint>)
    ensures |ps| == |values|
    ensures forall i :: 0 <= i < |values| ==> ps[i].date == values[i].date && ps[i].number >= 0
    ensures |values| > 0 ==> ps[0].number == Clamp(values[0].number)
    ensures forall i :: 0 < i < |values| && values[i - 1].number <= values[i].number ==>
              ps[i].number == values[i].number - values[i - 1].number
    ensures forall i :: 0 < i < |values| && values[i].number < values[i - 1].number ==> ps[i].number == 0
  {
    var c := RawChanges(Counts(values));
    seq(|values|, i requires 0 <= i < |values| => DailyPoint(values[i].date, Clamp(c[i])))
  }

  /** `casesPerDay`: the daily-change series of every group, in nest order. */
  function CasesPerDay(groups: seq<Group>): (ds: seq<DailySeries>)
    ensures |ds| == |groups|
    ensures forall i :: 0 <= i < |groups| ==> ds[i].key == groups[i].key && ds[i].values == Deltas(groups[i].values)
  {
    seq(|groups|, i requires 0 <= i < |groups| => DailySeries(groups[i].key, Deltas(groups[i].values)))
  }

  function DailyNumbers(ps: seq<DailyPoint>): (ns: seq<int>)
    ensures |ns| == |ps|
    ensures forall i :: 0 <= i < |ps| ==> ns[i] == ps[i].number
  {
    seq(|ps|, i requires 0 <= i < |ps| => ps[i].number)
  }

  predicate NonDecreasing(values: seq<CaseRecord>) {
    forall i :: 0 < i < |values| ==> values[i - 1].number <= values[i].number
  }

  /**
   * Adding up the daily changes gives back at least the cumulative count, and
   * exactly the cumulative count when the series never drops and starts non-negative.
   */
  lemma {:induction false} DeltasSumBack(values: seq<CaseRecord>, k: nat)
    requires k < |values|
    ensures Sum(DailyNumbers(Deltas(values))[..k + 1]) >= values[k].number
    ensures NonDecreasing(values) && values[0].number >= 0 ==>
              Sum(DailyNumbers(Deltas(values))[..k + 1]) == values[k].number
  {
    var ns := DailyNumbers(Deltas(values));
    if k == 0 {
      assert ns[..1] == [ns[0]];
      assert Sum(ns[..1]) == ns[0] + Sum([]);
    } else {
      DeltasSumBack(values, k - 1);
      assert ns[..k + 1] == ns[..k] + [ns[k]];
      SumSnoc(ns[..k], ns[k]);
    }
  }

  /** The daily view of the cumulative series 10, 15, 13, 20. */
  lemma DeltasExample(d0: int, d1: int, d2: int, d3: int)
    ensures var values := [CaseRecord(d0, "Utrecht", 344, "Utrecht", 10), CaseRecord(d1, "Utrecht", 344, "Utrecht", 15),
                           CaseRecord(d2, "Utrecht", 344, "Utrecht", 13), CaseRecord(d3, "Utrecht", 344, "Utrecht", 20)];
            DailyNumbers(Deltas(values)) == [10, 5, 0, 7]
  {
  }

  /**
   * With non-negative counts the daily view's y-domain [0, maxNew] covers every
   * plotted point, although maxNew is taken over the unclamped changes.
   */
  lemma DailyViewCovered(data: seq<CaseRecord>)
    requires forall k :: 0 <= k < |data| ==> data[k].number >= 0
    ensures MaxNew(data).Some? <==> data != []
    ensures forall i, k :: 0 <= i < |Nest(data)| && 0 <= k < |Nest(data)[i].values| ==>
              MaxNew(data).Some? && CasesPerDay(Nest(data))[i].values[k].number <= MaxNew(data).value
  {
    var g := Nest(data);
    SummariesDistinct(data);
    NestSize(data);
    if data != [] {
      assert TotalSize(g) > 0;
    }
    forall i, k | 0 <= i < |g| && 0 <= k < |g[i].values|
      ensures MaxNew(data).Some? && CasesPerDay(g)[i].values[k].number <= MaxNew(data).value
    {
      PointCovered(data, i, k);
    }
  }

  /** `maxNew` is at least every unclamped change of every city. */
  lemma ChangeBelowMaxNew(data: seq<CaseRecord>, i: nat, k: nat)
    requires i < |Nest(data)| && k < |Nest(data)[i].values|
    ensures MaxNew(data).Some?
    ensures RawChanges(Counts(Nest(data)[i].values))[k] <= MaxNew(data).value
  {
    var g := Nest(data);
    SummariesDistinct(data);
    var ss := Summaries(g);
    var agg := CityAgg(data);
    assert ss[i] in multiset(agg);
    var a :| 0 <= a < |agg| && agg[a] == ss[i];
    assert RawChanges(Counts(g[i].values))[k] <= ss[i].maxNew;
  }

  /** `maxNew` is one of the unclamped changes: the one at record k of group i. */
  lemma MaxNewAttained(data: seq<CaseRecord>) returns (i: nat, k: nat)
    requires MaxNew(data).Some?
    ensures i < |Nest(data)| && k < |Nest(data)[i].values|
    ensures RawChanges(Counts(Nest(data)[i].values))[k] == MaxNew(data).value
  {
    var agg := CityAgg(data);
    var a :| 0 <= a < |agg| && agg[a].maxNew == MaxNew(data).value;
    i := RankedEntry(data, a);
    var g := Nest(data)[i];
    k :| 0 <= k < |g.values| && RawChanges(Counts(g.values))[k] == Rollup(g).maxNew;
  }

  lemma PointCovered(data: seq<CaseRecord>, i: nat, k: nat)
    requires forall k :: 0 <= k < |data| ==> data[k].number >= 0
    requires i < |Nest(data)| && k < |Nest(data)[i].values|
    ensures MaxNew(data).Some? && CasesPerDay(Nest(data))[i].values[k].number <= MaxNew(data).value
  {
    var g := Nest(data)[i];
    ChangeBelowMaxNew(data, i, k);
    ChangeBelowMaxNew(data, i, 0);
    assert g.values[0].number >= 0 by {
      NestValues(data);
      assert g.values[0] in data;
    }
  }

  /**
   * `cityIndex`: maps every city to a position of it in allCities (the last
   * one, as later assignments overwrite earlier ones).
   */
  method BuildCityIndex(allCities: seq<string>) returns (cityIndex: map<string, int>)
    ensures forall c :: c in cityIndex <==> c in allCities
    ensures forall c :: c in cityIndex ==> 0 <= cityIndex[c] < |allCities| && allCities[cityIndex[c]] == c
    ensures forall c, j :: c in cityIndex && cityIndex[c] < j < |allCities| ==> allCities[j] != c
    ensures Distinct(allCities) ==> forall i :: 0 <= i < |allCities| ==> cityIndex[allCities[i]] == i
  {
    cityIndex := map[];
    for i := 0 to |allCities|
      invariant forall c :: c in cityIndex <==> c in allCities[..i]
      invariant forall c :: c in cityIndex ==> 0 <= cityIndex[c] < i && allCities[cityIndex[c]] == c
      invariant forall c, j :: c in cityIndex && cityIndex[c] < j < i ==> allCities[j] != c
    {
      cityIndex := cityIndex[allCities[i] := i];
    }
    assert allCities[..|allCities|] == allCities;
  }
}
