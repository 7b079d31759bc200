/**
 * `d3.nest().key(d => d.city).entries(data)`: the library walks the records
 * once, appending each to the group of its key and opening a new group (at the
 * end) for a key it has not seen; the groups come out in the order their keys
 * were first seen.
 */
module CityNest {
  import opened Cases
  import opened Seqs

  /** One entry of the nest: a city and its records. */
  datatype Group = Group(key: string, values: seq<CaseRecord>)

  /** The city of every record, in input order. */
  function Cities(data: seq<CaseRecord>): (cs: seq<string>)
    ensures |cs| == |data|
    ensures forall i :: 0 <= i < |data| ==> cs[i] == data[i].city
  {
    seq(|data|, i requires 0 <= i < |data| => data[i].city)
  }

  /** The records of city c, in input order (the reference definition of a group's values). */
  function CityRecords(data: seq<CaseRecord>, c: string): (rs: seq<CaseRecord>)
    ensures forall i :: 0 <= i < |rs| ==> rs[i].city == c && rs[i] in data
  {
    if data == [] then []
    else
      var last := data[|data| - 1];
      CityRecords(data[..|data| - 1], c) + (if last.city == c then [last] else [])
  }

  function KeysOf(groups: seq<Group>): (ks: seq<string>)
    ensures |ks| == |groups|
    ensures forall i :: 0 <= i < |groups| ==> ks[i] == groups[i].key
  {
    seq(|groups|, i requires 0 <= i < |groups| => groups[i].key)
  }

  /** Total number of records held by the groups. */
  function TotalSize(groups: seq<Group>): nat {
    if groups == [] then 0 else |groups[0].values| + TotalSize(groups[1..])
  }

  /** One step of the library's walk: push r onto its city's group, or open a new group at the end. */
  function AddRecord(groups: seq<Group>, r: CaseRecord): (gs: seq<Group>)
    ensures |groups| <= |gs| <= |groups| + 1 && gs != []
  {
    if groups == [] then [Group(r.city, [r])]
    else if groups[0].key == r.city then [Group(r.city, groups[0].values + [r])] + groups[1..]
    else [groups[0]] + AddRecord(groups[1..], r)
  }

  /** The nest of all records. */
  function Nest(data: seq<CaseRecord>): (gs: seq<Group>)
    ensures |gs| <= |data|
    ensures gs == [] <==> data == []
  {
    if data == [] then [] else AddRecord(Nest(data[..|data| - 1]), data[|data| - 1])
  }

  lemma {:induction false} AddRecordKeys(groups: seq<Group>, r: CaseRecord)
    ensures KeysOf(AddRecord(groups, r))
         == if r.city in KeysOf(groups) then KeysOf(groups) else KeysOf(groups) + [r.city]
  {
    if groups != [] {
      var t := groups[1..];
      assert groups == [groups[0]] + t;
      KeysOfCons(groups[0], t);
      if groups[0].key == r.city {
        KeysOfCons(Group(r.city, groups[0].values + [r]), t);
      } else {
        AddRecordKeys(t, r);
        KeysOfCons(groups[0], AddRecord(t, r));
      }
    }
  }

  lemma KeysOfCons(g: Group, gs: seq<Group>)
    ensures KeysOf([g] + gs) == [g.key] + KeysOf(gs)
  {
  }

  lemma {:induction false} AddRecordValues(groups: seq<Group>, r: CaseRecord)
    requires Distinct(KeysOf(groups))
    ensures |AddRecord(groups, r)| >= |groups|
    ensures forall i :: 0 <= i < |AddRecord(groups, r)| ==>
              AddRecord(groups, r)[i].values
              == (if i < |groups| then groups[i].values else [])
                 + (if AddRecord(groups, r)[i].key == r.city then [r] else [])
  {
    if groups != [] {
      if groups[0].key == r.city {
        forall i | 1 <= i < |groups| ensures groups[i].key != r.city {
          assert KeysOf(groups)[0] != KeysOf(groups)[i];
        }
      } else {
        var t := groups[1..];
        assert KeysOf(t) == KeysOf(groups)[1..];
        AddRecordValues(t, r);
        var a := AddRecord(t, r);
        assert AddRecord(groups, r) == [groups[0]] + a;
        forall i | 1 <= i < |a| + 1
          ensures ([groups[0]] + a)[i].values
                  == (if i < |groups| then groups[i].values else [])
                     + (if ([groups[0]] + a)[i].key == r.city then [r] else [])
        {
          assert ([groups[0]] + a)[i] == a[i - 1];
          assert i < |groups| ==> groups[i] == t[i - 1];
        }
      }
    }
  }

  lemma {:induction false} AddRecordSize(groups: seq<Group>, r: CaseRecord)
    ensures TotalSize(AddRecord(groups, r)) == TotalSize(groups) + 1
  {
    if groups == [] {
      assert TotalSize([Group(r.city, [r])]) == 1 + TotalSize([]);
    } else if groups[0].key == r.city {
      var g' := AddRecord(groups, r);
      assert g'[1..] == groups[1..];
    } else {
      AddRecordSize(groups[1..], r);
      var g' := AddRecord(groups, r);
      assert g'[1..] == AddRecord(groups[1..], r);
    }
  }

  lemma CitiesSnoc(data: seq<CaseRecord>)
    requires data != []
    ensures Cities(data) == Cities(data[..|data| - 1]) + [data[|data| - 1].city]
  {
  }

  lemma {:induction false} CityRecordsAbsent(data: seq<CaseRecord>, c: string)
    requires c !in Cities(data)
    ensures CityRecords(data, c) == []
  {
    if data != [] {
      CitiesSnoc(data);
      CityRecordsAbsent(data[..|data| - 1], c);
    }
  }

  /**
   * The keys of the nest are the distinct cities of the data, ordered by where
   * each city first occurs.
   */
  lemma {:induction false} NestKeys(data: seq<CaseRecord>)
    ensures Distinct(KeysOf(Nest(data)))
    ensures forall c :: c in KeysOf(Nest(data)) <==> c in Cities(data)
    ensures forall i, j :: 0 <= i < j < |Nest(data)| ==>
              FirstIndex(Cities(data), Nest(data)[i].key) < FirstIndex(Cities(data), Nest(data)[j].key)
  {
    if data != [] {
      var init, r := data[..|data| - 1], data[|data| - 1];
      NestKeys(init);
      AddRecordKeys(Nest(init), r);
      CitiesSnoc(data);
      var ks, ks' := KeysOf(Nest(init)), KeysOf(Nest(data));
      forall c ensures FirstIndex(Cities(data), c) == if c in Cities(init) then FirstIndex(Cities(init), c)
                                                       else if c == r.city then |init| else |data| {
        FirstIndexSnoc(Cities(init), r.city, c);
      }
      forall i, j | 0 <= i < j < |Nest(data)|
        ensures FirstIndex(Cities(data), Nest(data)[i].key) < FirstIndex(Cities(data), Nest(data)[j].key)
      {
        assert ks'[i] == Nest(data)[i].key && ks'[j] == Nest(data)[j].key;
        if j < |ks| {
          assert ks'[i] == ks[i] && ks'[j] == ks[j];
          assert Nest(init)[i].key == ks[i] && Nest(init)[j].key == ks[j];
          assert ks[i] in Cities(init) && ks[j] in Cities(init);
        } else {
          assert ks'[i] == ks[i];
          assert ks[i] in Cities(init);
        }
      }
    }
  }

  /** Every group holds exactly the records of its city, in input order. */
  lemma {:induction false} NestValues(data: seq<CaseRecord>)
    ensures forall i :: 0 <= i < |Nest(data)| ==> Nest(data)[i].values == CityRecords(data, Nest(data)[i].key)
  {
    if data != [] {
      var init, r := data[..|data| - 1], data[|data| - 1];
      NestValues(init);
      NestKeys(init);
      AddRecordKeys(Nest(init), r);
      AddRecordValues(Nest(init), r);
      var g, g' := Nest(init), Nest(data);
      forall i | 0 <= i < |g'| ensures g'[i].values == CityRecords(data, g'[i].key) {
        if i >= |g| {
          assert KeysOf(g')[i] == r.city;
          assert r.city !in KeysOf(g);
          CityRecordsAbsent(init, r.city);
        } else {
          assert KeysOf(g')[i] == KeysOf(g)[i];
        }
      }
    }
  }

  /** The group sizes add up to the number of records. */
  lemma {:induction false} NestSize(data: seq<CaseRecord>)
    ensures TotalSize(Nest(data)) == |data|
  {
    if data != [] {
      NestSize(data[..|data| - 1]);
      AddRecordSize(Nest(data[..|data| - 1]), data[|data| - 1]);
    }
  }

  /** A city that occurs in the data has at least one record. */
  lemma {:induction false} CityRecordsPresent(data: seq<CaseRecord>, k: nat)
    requires k < |data|
    ensures data[k] in CityRecords(data, data[k].city)
  {
    var init := data[..|data| - 1];
    if k < |data| - 1 {
      assert init[k] == data[k];
      CityRecordsPresent(init, k);
    }
  }

  /** Every group of the nest is non-empty. */
  lemma NestNonEmpty(data: seq<CaseRecord>)
    ensures forall i :: 0 <= i < |Nest(data)| ==> Nest(data)[i].values != []
  {
    NestKeys(data);
    NestValues(data);
    forall i | 0 <= i < |Nest(data)| ensures Nest(data)[i].values != [] {
      assert KeysOf(Nest(data))[i] in Cities(data);
      var k :| 0 <= k < |data| && Cities(data)[k] == Nest(data)[i].key;
      CityRecordsPresent(data, k);
    }
  }

  /** Each record sits in exactly one group: the one keyed by its own city. */
  lemma RecordInItsGroup(data: seq<CaseRecord>, k: nat)
    requires k < |data|
    ensures exists i :: 0 <= i < |Nest(data)| && Nest(data)[i].key == data[k].city && data[k] in Nest(data)[i].values
    ensures forall i, j :: 0 <= i < j < |Nest(data)| ==> Nest(data)[i].key != Nest(data)[j].key
  {
    var g := Nest(data);
    var ks := KeysOf(g);
    NestKeys(data);
    NestValues(data);
    CityRecordsPresent(data, k);
    assert Cities(data)[k] == data[k].city;
    assert data[k].city in ks;
    var i :| 0 <= i < |g| && ks[i] == data[k].city;
    assert g[i].values == CityRecords(data, data[k].city);
  }
}
