/**
 * The data preparation of the static line chart: cities ranked by the sum of
 * their counts, the five best cities, and the groups of the full nest that
 * belong to them.
 */
module SumPlot {
  import opened Seqs
  import opened StableSort
  import opened Ranking
  import opened Cases
  import opened CityNest

  /** One entry of the rolled-up nest: a city and the sum of its counts. */
  datatype CityTotal = CityTotal(key: string, value: int)

  function Total(g: Group): CityTotal {
    CityTotal(g.key, Sum(Counts(g.values)))
  }

  function Totals(groups: seq<Group>): (ts: seq<CityTotal>)
    ensures |ts| == |groups|
    ensures forall i :: 0 <= i < |groups| ==> ts[i] == Total(groups[i])
  {
    seq(|groups|, i requires 0 <= i < |groups| => Total(groups[i]))
  }

  /** The comparator `(a, b) => b.value - a.value` orders by this key, ascending. */
  function NegTotal(t: CityTotal): int {
    -t.value
  }

  function TotalKey(t: CityTotal): string {
    t.key
  }

  /** `nest`: the per-city sums, largest first. */
  function RankedTotals(data: seq<CaseRecord>): (r: seq<CityTotal>)
    ensures |r| == |Nest(data)|
    ensures forall i, j :: 0 <= i < j < |r| ==> r[i].value >= r[j].value
  {
    var ts := Totals(Nest(data));
    var r := SortBy(ts, NegTotal);
    assert |r| == |multiset(r)| == |multiset(ts)| == |ts|;
    assert forall i, j :: 0 <= i < j < |r| ==> NegTotal(r[i]) <= NegTotal(r[j]);
    r
  }

  /** `allCities`: every city, largest sum first. */
  function AllCities(data: seq<CaseRecord>): seq<string> {
    Names(RankedTotals(data), TotalKey)
  }

  /** `cities`: the five best ranked cities. */
  function TopCities(data: seq<CaseRecord>): seq<string> {
    Take(AllCities(data), 5)
  }

  /** The groups whose key is one of `cities`, in their original order. */
  function Selected(groups: seq<Group>, cities: seq<string>): (sel: seq<Group>)
    ensures |sel| <= |groups|
  {
    if groups == [] then []
    else (if groups[0].key in cities then [groups[0]] else []) + Selected(groups[1..], cities)
  }

  /** The filter keeps exactly the groups whose key is one of the cities. */
  lemma {:induction false} SelectedMembers(groups: seq<Group>, cities: seq<string>)
    ensures forall g :: g in Selected(groups, cities) <==> g in groups && g.key in cities
  {
    if groups != [] {
      SelectedMembers(groups[1..], cities);
      assert groups == [groups[0]] + groups[1..];
    }
  }

  /** `cityData`: the full nest restricted to the top cities. */
  function CityData(data: seq<CaseRecord>): (cd: seq<Group>)
    ensures |cd| <= |Nest(data)|
    ensures forall g :: g in cd <==> g in Nest(data) && g.key in TopCities(data)
  {
    SelectedMembers(Nest(data), TopCities(data));
    Selected(Nest(data), TopCities(data))
  }

  /** The sum of the counts of one city's records. */
  function CitySum(data: seq<CaseRecord>, c: string): int {
    Sum(Counts(CityRecords(data, c)))
  }

  /** The totals of the nest carry its keys, so they are pairwise different. */
  lemma TotalsNames(data: seq<CaseRecord>)
    ensures Names(Totals(Nest(data)), TotalKey) == KeysOf(Nest(data))
    ensures Distinct(Names(Totals(Nest(data)), TotalKey))
    ensures Distinct(Totals(Nest(data)))
  {
    var g := Nest(data);
    NestKeys(data);
    assert Names(Totals(g), TotalKey) == KeysOf(g);
    EntriesDistinct(Totals(g), TotalKey);
  }

  /** Every ranked entry is the total of one group of the nest. */
  lemma RankedEntry(data: seq<CaseRecord>, i: nat) returns (p: nat)
    requires i < |RankedTotals(data)|
    ensures p < |Nest(data)|
    ensures RankedTotals(data)[i] == Totals(Nest(data))[p] == Total(Nest(data)[p])
  {
    var ts := Totals(Nest(data));
    assert RankedTotals(data)[i] in multiset(ts);
    p :| 0 <= p < |ts| && RankedTotals(data)[i] == ts[p];
  }

  /** Each ranked value is the sum of the counts of its city's records. */
  lemma TotalsAreSums(data: seq<CaseRecord>, i: nat)
    requires i < |RankedTotals(data)|
    ensures RankedTotals(data)[i].value == CitySum(data, RankedTotals(data)[i].key)
  {
    var p := RankedEntry(data, i);
    NestValues(data);
  }

  /** allCities lists every city of the data exactly once. */
  lemma AllCitiesPermutation(data: seq<CaseRecord>)
    ensures |AllCities(data)| == |Nest(data)|
    ensures Distinct(AllCities(data))
    ensures forall c :: c in AllCities(data) <==> c in Cities(data)
  {
    TotalsNames(data);
    NestKeys(data);
    RankedNames(Totals(Nest(data)), RankedTotals(data), TotalKey);
  }

  /**
   * The ranking: sums are non-increasing along `nest`, and cities with equal
   * sums keep the order in which they first occur in the data.
   */
  lemma AllCitiesRanked(data: seq<CaseRecord>)
    ensures |AllCities(data)| == |RankedTotals(data)|
    ensures forall i, j :: 0 <= i < j < |RankedTotals(data)| ==>
              RankedTotals(data)[i].value >= RankedTotals(data)[j].value
    ensures forall i, j :: (0 <= i < j < |RankedTotals(data)| &&
              RankedTotals(data)[i].value == RankedTotals(data)[j].value) ==>
              FirstIndex(Cities(data), AllCities(data)[i]) < FirstIndex(Cities(data), AllCities(data)[j])
  {
    var g := Nest(data);
    var ts := Totals(g);
    var r := RankedTotals(data);
    var all := AllCities(data);
    forall i, j | 0 <= i < j < |r| ensures r[i].value >= r[j].value {
      assert NegTotal(r[i]) <= NegTotal(r[j]);
    }
    forall i, j | 0 <= i < j < |r| && r[i].value == r[j].value
      ensures FirstIndex(Cities(data), all[i]) < FirstIndex(Cities(data), all[j])
    {
      TotalsNames(data);
      StableOrder(r, ts, NegTotal, i, j);
      var p, q := FirstIndex(ts, r[i]), FirstIndex(ts, r[j]);
      NestKeys(data);
      assert g[p].key == all[i] && g[q].key == all[j];
    }
  }

  /** The top cities are the best ranked ones: exactly min(5, n) distinct cities of the data. */
  lemma TopCitiesAreFirst(data: seq<CaseRecord>)
    ensures |TopCities(data)| == Min(5, |Nest(data)|)
    ensures Distinct(TopCities(data))
    ensures forall c :: c in TopCities(data) ==> c in Cities(data)
  {
    AllCitiesPermutation(data);
    var all, top := AllCities(data), TopCities(data);
    forall c | c in top ensures c in Cities(data) {
      var i :| 0 <= i < |top| && top[i] == c;
      assert all[i] == c;
    }
  }

  /** Each selected group is taken from the groups. */
  lemma SelectedAt(groups: seq<Group>, cities: seq<string>, j: nat) returns (q: nat)
    requires j < |Selected(groups, cities)|
    ensures q < |groups| && Selected(groups, cities)[j] == groups[q]
  {
    SelectedMembers(groups, cities);
    assert Selected(groups, cities)[j] in groups;
    q :| 0 <= q < |groups| && groups[q] == Selected(groups, cities)[j];
  }

  /** The selected groups occur in the same order as in the groups they were taken from. */
  lemma {:induction false} SelectedInOrder(groups: seq<Group>, cities: seq<string>, i: nat, j: nat)
    returns (p: nat, q: nat)
    requires i < j < |Selected(groups, cities)|
    ensures p < q < |groups|
    ensures Selected(groups, cities)[i] == groups[p] && Selected(groups, cities)[j] == groups[q]
  {
    var sel, rest := Selected(groups, cities), Selected(groups[1..], cities);
    var p', q';
    if groups[0].key in cities {
      assert sel == [groups[0]] + rest;
      if i == 0 {
        q' := SelectedAt(groups[1..], cities, j - 1);
        p := 0;
      } else {
        p', q' := SelectedInOrder(groups[1..], cities, i - 1, j - 1);
        p := p' + 1;
        assert sel[i] == rest[i - 1];
      }
      assert sel[j] == rest[j - 1];
    } else {
      assert sel == rest;
      p', q' := SelectedInOrder(groups[1..], cities, i, j);
      p := p' + 1;
    }
    q := q' + 1;
  }

  /** cityData keeps the first-appearance order of the full nest, not the ranking order. */
  lemma CityDataOrder(data: seq<CaseRecord>)
    ensures forall i, j :: 0 <= i < j < |CityData(data)| ==>
              FirstIndex(Cities(data), CityData(data)[i].key) < FirstIndex(Cities(data), CityData(data)[j].key)
  {
    var cd := CityData(data);
    NestKeys(data);
    forall i, j | 0 <= i < j < |cd|
      ensures FirstIndex(Cities(data), cd[i].key) < FirstIndex(Cities(data), cd[j].key)
    {
      var p, q := SelectedInOrder(Nest(data), TopCities(data), i, j);
    }
  }

  /** Every group of cityData is a top city's full group, records unchanged. */
  lemma CityDataGroups(data: seq<CaseRecord>)
    ensures forall g :: g in CityData(data) ==>
              g.key in TopCities(data) && g.values == CityRecords(data, g.key) && g.values != []
    ensures forall c :: c in TopCities(data) ==> exists g :: g in CityData(data) && g.key == c
  {
    var n := Nest(data);
    SelectedMembers(n, TopCities(data));
    NestValues(data);
    NestNonEmpty(data);
    forall c | c in TopCities(data) ensures exists g :: g in CityData(data) && g.key == c {
      TopCitiesAreFirst(data);
      NestKeys(data);
      assert c in KeysOf(n);
      var p :| 0 <= p < |n| && KeysOf(n)[p] == c;
      assert n[p] in CityData(data);
    }
  }

  /** cityData holds exactly min(5, n) groups, one per top city. */
  lemma CityDataSize(data: seq<CaseRecord>)
    ensures |CityData(data)| == Min(5, |Nest(data)|)
  {
    var cd, top := CityData(data), TopCities(data);
    var ks := KeysOf(cd);
    CityDataOrder(data);
    CityDataGroups(data);
    TopCitiesAreFirst(data);
    forall i, j | 0 <= i < j < |ks| ensures ks[i] != ks[j] {
      assert FirstIndex(Cities(data), cd[i].key) < FirstIndex(Cities(data), cd[j].key);
    }
    assert (set c | c in ks) == (set c | c in top) by {
      forall c ensures c in ks <==> c in top {
        if c in top {
          var g :| g in cd && g.key == c;
          var i :| 0 <= i < |cd| && cd[i] == g;
          assert ks[i] == c;
        }
      }
    }
    DistinctCardinality(ks);
    DistinctCardinality(top);
  }

  /** No city left out of cityData has a strictly larger sum than a city drawn in it. */
  lemma NoBetterCityLeftOut(data: seq<CaseRecord>, c: string, d: string)
    requires c in Cities(data) && c !in TopCities(data)
    requires d in TopCities(data)
    ensures CitySum(data, c) <= CitySum(data, d)
  {
    AllCitiesPermutation(data);
    AllCitiesRanked(data);
    var all, top, r := AllCities(data), TopCities(data), RankedTotals(data);
    var i :| 0 <= i < |top| && top[i] == d;
    var j :| 0 <= j < |all| && all[j] == c;
    assert all[i] == d;
    TotalsAreSums(data, i);
    TotalsAreSums(data, j);
  }
}
