/**
 * The clickable, searchable city legend of the line chart. Its state is the
 * list of selected cities, kept in ranking order; clicking a city adds it to
 * or removes it from that list.
 */
module Legend {
  import opened Seqs
  import opened StableSort
  import Cases
  import LinePlot

  /** `cities.filter(elem => elem !== d)`. */
  function Without(s: seq<string>, d: string): (r: seq<string>)
    ensures forall c :: c in r <==> c in s && c != d
    ensures Distinct(s) ==> Distinct(r)
    ensures |r| <= |s|
  {
    if s == [] then []
    else if s[0] == d then Without(s[1..], d)
    else
      assert Distinct(s) ==> s[0] !in s[1..] && Distinct(s[1..]);
      [s[0]] + Without(s[1..], d)
  }

  /** The comparator `(a, b) => cityIndex[a] - cityIndex[b]` orders by this key, ascending. */
  function ByIndex(cityIndex: map<string, int>): string -> int {
    c => if c in cityIndex then cityIndex[c] else 0
  }

  /** Indexed cities, each ranked strictly after the one before (hence no repeats). */
  predicate StrictlyAscending(s: seq<string>, cityIndex: map<string, int>) {
    && (forall i :: 0 <= i < |s| ==> s[i] in cityIndex)
    && (forall i, j :: 0 <= i < j < |s| ==> cityIndex[s[i]] < cityIndex[s[j]])
  }

  /** A selection is determined by its members: two ascending lists with the same cities are equal. */
  lemma {:induction false} AscendingUnique(a: seq<string>, b: seq<string>, cityIndex: map<string, int>)
    requires StrictlyAscending(a, cityIndex) && StrictlyAscending(b, cityIndex)
    requires forall c :: c in a <==> c in b
    ensures a == b
  {
    EmptyAlike(a, b);
    if a != [] {
      SameHead(a, b, cityIndex);
      SameTail(a, b, cityIndex);
      AscendingUnique(a[1..], b[1..], cityIndex);
      assert a == [a[0]] + a[1..] && b == [b[0]] + b[1..];
    }
  }

  lemma EmptyAlike(a: seq<string>, b: seq<string>)
    requires forall c :: c in a <==> c in b
    ensures a == [] <==> b == []
  {
    if a != [] {
      assert a[0] in b;
    }
    if b != [] {
      assert b[0] in a;
    }
  }

  /** The first city of an ascending list is the lowest-ranked of its members. */
  lemma SameHead(a: seq<string>, b: seq<string>, cityIndex: map<string, int>)
    requires StrictlyAscending(a, cityIndex) && StrictlyAscending(b, cityIndex)
    requires forall c :: c in a <==> c in b
    requires a != [] && b != []
    ensures a[0] == b[0]
  {
    assert a[0] in b && b[0] in a;
    var j :| 0 <= j < |b| && b[j] == a[0];
    var i :| 0 <= i < |a| && a[i] == b[0];
  }

  lemma SameTail(a: seq<string>, b: seq<string>, cityIndex: map<string, int>)
    requires StrictlyAscending(a, cityIndex) && StrictlyAscending(b, cityIndex)
    requires forall c :: c in a <==> c in b
    requires a != [] && b != [] && a[0] == b[0]
    ensures forall c :: c in a[1..] <==> c in b[1..]
  {
    forall c ensures c in a[1..] ==> c in b[1..] {
      if c in a[1..] {
        var i :| 1 <= i < |a| && a[i] == c;
        assert c in b;
        var j :| 0 <= j < |b| && b[j] == c;
        assert cityIndex[a[0]] < cityIndex[c];
        assert b[1..][j - 1] == c;
      }
    }
    forall c ensures c in b[1..] ==> c in a[1..] {
      if c in b[1..] {
        var j :| 1 <= j < |b| && b[j] == c;
        assert c in a;
        var i :| 0 <= i < |a| && a[i] == c;
        assert cityIndex[b[0]] < cityIndex[c];
        assert a[1..][i - 1] == c;
      }
    }
  }

  /** Sorting a duplicate-free list of ranked cities by their index lists them strictly ascending. */
  lemma Reranked(allCities: seq<string>, cityIndex: map<string, int>, next: seq<string>, sorted: seq<string>)
    requires forall c :: c in cityIndex <==> c in allCities
    requires forall i :: 0 <= i < |allCities| ==> cityIndex[allCities[i]] == i
    requires forall c :: c in next ==> c in allCities
    requires Distinct(next)
    requires SortedBy(sorted, ByIndex(cityIndex)) && multiset(sorted) == multiset(next)
    ensures forall c :: c in sorted <==> c in next
    ensures StrictlyAscending(sorted, cityIndex)
  {
    var key := ByIndex(cityIndex);
    forall c ensures c in sorted <==> c in next {
      assert c in sorted <==> c in multiset(sorted);
    }
    DistinctPermutation(sorted, next);
    forall i, j | 0 <= i < j < |sorted| ensures cityIndex[sorted[i]] < cityIndex[sorted[j]] {
      assert key(sorted[i]) <= key(sorted[j]);
      assert sorted[i] in next && sorted[j] in next;
      var p :| 0 <= p < |allCities| && allCities[p] == sorted[i];
      var q :| 0 <= q < |allCities| && allCities[q] == sorted[j];
      assert sorted[i] != sorted[j];
      assert cityIndex[sorted[i]] == p && cityIndex[sorted[j]] == q;
    }
  }

  /** The legend's selection state over a fixed ranking. */
  class LegendSelection {
    /** The ranking, best first (`allCities`). */
    const allCities: seq<string>
    /** Each city's position in the ranking (`cityIndex`). */
    const cityIndex: map<string, int>
    /** The selected cities, in ranking order (`cities`). */
    var cities: seq<string>

    ghost predicate Valid()
      reads this
    {
      && Distinct(allCities)
      && (forall c :: c in cityIndex <==> c in allCities)
      && (forall i :: 0 <= i < |allCities| ==> cityIndex[allCities[i]] == i)
      && (forall c :: c in cities ==> c in allCities)
      && StrictlyAscending(cities, cityIndex)
    }

    /** The ranking of the data, with the five best-ranked cities selected. */
    constructor (data: seq<Cases.CaseRecord>)
      ensures Valid()
      ensures allCities == LinePlot.AllCities(data)
      ensures cities == LinePlot.DefaultCities(data)
    {
      LinePlot.AllCitiesPermutation(data);
      allCities := LinePlot.AllCities(data);
      var index := LinePlot.BuildCityIndex(LinePlot.AllCities(data));
      cityIndex := index;
      cities := LinePlot.DefaultCities(data);
    }

    /**
     * A click on city d: d is deselected if it was selected and selected
     * otherwise; every other city keeps its state, and the list stays in
     * ranking order.
     */
    method Toggle(d: string)
      requires Valid() && d in allCities
      modifies this
      ensures Valid()
      ensures forall c :: c in cities <==> if c == d then c !in old(cities) else c in old(cities)
    {
      var next: seq<string>;
      if d in cities {
        next := Without(cities, d);
      } else {
        next := cities + [d];
      }
      assert forall c :: c in next ==> c in allCities;
      assert Distinct(cities);
      assert Distinct(next);
      cities := SortBy(next, ByIndex(cityIndex));
      Reranked(allCities, cityIndex, next, cities);
    }
  }

  /** Two clicks on the same city leave the selection as it was. */
  method ToggleTwice(sel: LegendSelection, d: string)
    requires sel.Valid() && d in sel.allCities
    modifies sel
    ensures sel.Valid()
    ensures sel.cities == old(sel.cities)
  {
    sel.Toggle(d);
    sel.Toggle(d);
    AscendingUnique(sel.cities, old(sel.cities), sel.cityIndex);
  }

  /** `toUpperCase` on ASCII letters; every other character is left alone. */
  function UpperAscii(s: string): (r: string)
    ensures |r| == |s|
    ensures forall i :: 0 <= i < |s| ==> r[i] == if 'a' <= s[i] <= 'z' then (s[i] as int - 32) as char else s[i]
  {
    seq(|s|, i requires 0 <= i < |s| => if 'a' <= s[i] <= 'z' then (s[i] as int - 32) as char else s[i])
  }

  /** key occurs in text at position i. */
  predicate OccursAt(key: string, text: string, i: int) {
    0 <= i && i + |key| <= |text| && text[i..i + |key|] == key
  }

  /** `text.indexOf(key)`: the first position where key occurs, or -1. */
  function IndexOf(text: string, key: string): (k: int)
    ensures -1 <= k <= |text|
    ensures k >= 0 ==> OccursAt(key, text, k)
    ensures forall i :: 0 <= i && (k == -1 || i < k) ==> !OccursAt(key, text, i)
  {
    if |text| < |key| then -1
    else if text[..|key|] == key then 0
    else
      var r := IndexOf(text[1..], key);
      assert forall i :: 1 <= i ==> (OccursAt(key, text, i) <==> OccursAt(key, text[1..], i - 1));
      if r == -1 then -1 else r + 1
  }

  /** A legend entry stays visible when the upper-cased search text occurs in its upper-cased name. */
  predicate Shown(query: string, name: string)
    ensures Shown(query, name) ==> |query| <= |name|
    ensures query == "" ==> Shown(query, name)
  {
    IndexOf(UpperAscii(name), UpperAscii(query)) > -1
  }

  /** Typing more can only hide entries: what a longer query shows, each of its prefixes shows too. */
  lemma SearchNarrows(query: string, more: string, name: string)
    requires Shown(query + more, name)
    ensures Shown(query, name)
  {
    var t, k, q := UpperAscii(name), UpperAscii(query + more), UpperAscii(query);
    var i := IndexOf(t, k);
    assert t[i..i + |k|] == k;
    forall m | 0 <= m < |q| ensures t[i + m] == q[m] {
      assert (query + more)[m] == query[m];
      assert t[i..i + |k|][m] == k[m];
    }
    assert t[i..i + |q|] == q;
    assert OccursAt(q, t, i);
  }

  /** `citySearch`: decides for each legend entry whether it is displayed. */
  method CitySearch(query: string, items: seq<string>) returns (display: seq<bool>)
    ensures |display| == |items|
    ensures forall i :: 0 <= i < |items| ==> display[i] == Shown(query, items[i])
    ensures query == "" ==> forall i :: 0 <= i < |items| ==> display[i]
  {
    var key := UpperAscii(query);
    display := [];
    for i := 0 to |items|
      invariant |display| == i
      invariant forall j :: 0 <= j < i ==> display[j] == Shown(query, items[j])
    {
      var text := UpperAscii(items[i]);
      display := display + [IndexOf(text, key) > -1];
    }
    if query == "" {
      forall i | 0 <= i < |items| ensures display[i] {
        assert OccursAt(UpperAscii(query), UpperAscii(items[i]), 0);
      }
    }
  }
}
