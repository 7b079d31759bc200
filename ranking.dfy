/**
 * Ranking rollup entries that carry distinct city names: a stable sort of the
 * entries keeps every name exactly once, and entries that tie on the sort key
 * keep their original relative order.
 */
module Ranking {
  import opened Seqs
  import opened StableSort

  function Names<T>(s: seq<T>, name: T -> string): (ns: seq<string>)
    ensures |ns| == |s|
    ensures forall i :: 0 <= i < |s| ==> ns[i] == name(s[i])
  {
    seq(|s|, i requires 0 <= i < |s| => name(s[i]))
  }

  /** A permutation of entries with distinct names lists the same names, each once. */
  lemma RankedNames<T>(ss: seq<T>, r: seq<T>, name: T -> string)
    requires Distinct(Names(ss, name)) && multiset(r) == multiset(ss)
    ensures |r| == |ss|
    ensures Distinct(Names(r, name))
    ensures forall c :: c in Names(r, name) <==> c in Names(ss, name)
  {
    assert |r| == |multiset(r)| == |multiset(ss)| == |ss|;
    var nr, ns := Names(r, name), Names(ss, name);
    forall i | 0 <= i < |r| ensures exists p :: 0 <= p < |ss| && r[i] == ss[p] {
      assert r[i] in multiset(ss);
    }
    EntriesDistinct(ss, name);
    DistinctPermutation(r, ss);
    forall i, j | 0 <= i < j < |r| ensures nr[i] != nr[j] {
      var p :| 0 <= p < |ss| && r[i] == ss[p];
      var q :| 0 <= q < |ss| && r[j] == ss[q];
      if p != q {
        assert ns[p] != ns[q];
      }
    }
    forall c ensures c in nr <==> c in ns {
      if c in nr {
        var i :| 0 <= i < |r| && nr[i] == c;
        var p :| 0 <= p < |ss| && r[i] == ss[p];
        assert ns[p] == c;
      }
      if c in ns {
        var p :| 0 <= p < |ss| && ns[p] == c;
        assert ss[p] in multiset(r);
        var i :| 0 <= i < |r| && r[i] == ss[p];
        assert nr[i] == c;
      }
    }
  }

  /** Entries with distinct names are distinct. */
  lemma EntriesDistinct<T>(ss: seq<T>, name: T -> string)
    requires Distinct(Names(ss, name))
    ensures Distinct(ss)
  {
    var ns := Names(ss, name);
    forall a, b | 0 <= a < b < |ss| ensures ss[a] != ss[b] {
      assert ns[a] != ns[b];
    }
  }
}
