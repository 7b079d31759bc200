/**
 * Ingestion of the municipal case table (columns Datum, Gemeentenaam,
 * Gemeentecode, Provincienaam, Aantal). The CSV loader calls a row mapper
 * on every row and leaves out each row for which the mapper returns nothing.
 */
module Cases {
  import opened Wrappers
  import Seqs

  /** One CSV row, fields already converted: the date as an ordered day number, codes and counts as integers. */
  datatype CsvRow = CsvRow(datum: int, gemeentenaam: string, gemeentecode: int, provincienaam: string, aantal: int)

  /** A renamed record as the plotting code sees it. */
  datatype CaseRecord = CaseRecord(date: int, city: string, cityCode: int, province: string, number: int)

  /** The row mapper: rows without a municipality name yield nothing; the others are renamed. */
  function MapRow(row: CsvRow): (r: Option<CaseRecord>)
    ensures r.Some? <==> row.gemeentenaam != ""
    ensures r.Some? ==> r.value == CaseRecord(row.datum, row.gemeentenaam, row.gemeentecode,
                                              row.provincienaam, row.aantal)
  {
    if row.gemeentenaam != "" then
      Some(CaseRecord(row.datum, row.gemeentenaam, row.gemeentecode, row.provincienaam, row.aantal))
    else
      None
  }

  /** The loader: map every row in order, omitting the rows the mapper drops. */
  function ReadRows(rows: seq<CsvRow>): (r: seq<CaseRecord>)
    ensures |r| <= |rows|
    ensures forall i :: 0 <= i < |r| ==> r[i].city != ""
  {
    if rows == [] then []
    else
      match MapRow(rows[0])
      case Some(rec) => [rec] + ReadRows(rows[1..])
      case None => ReadRows(rows[1..])
  }

  /** Adds one to every position. */
  function Shift(ps: seq<nat>): (r: seq<nat>)
    ensures |r| == |ps|
    ensures forall i :: 0 <= i < |ps| ==> r[i] == ps[i] + 1
  {
    seq(|ps|, i requires 0 <= i < |ps| => ps[i] + 1)
  }

  /** The positions of the rows that carry a municipality name, in increasing order. */
  function KeptPositions(rows: seq<CsvRow>): (ps: seq<nat>)
    ensures forall i, j :: 0 <= i < j < |ps| ==> ps[i] < ps[j]
    ensures forall i :: 0 <= i < |ps| ==> ps[i] < |rows| && rows[ps[i]].gemeentenaam != ""
  {
    if rows == [] then []
    else
      var rest := KeptPositions(rows[1..]);
      var shifted := Shift(rest);
      KeptPositionsStep(rows, rest, shifted);
      if rows[0].gemeentenaam != "" then [0] + shifted else shifted
  }

  lemma KeptPositionsStep(rows: seq<CsvRow>, rest: seq<nat>, shifted: seq<nat>)
    requires rows != []
    requires forall i, j :: 0 <= i < j < |rest| ==> rest[i] < rest[j]
    requires forall i :: 0 <= i < |rest| ==> rest[i] < |rows| - 1 && rows[1..][rest[i]].gemeentenaam != ""
    requires shifted == Shift(rest)
    ensures forall i, j :: 0 <= i < j < |shifted| ==> shifted[i] < shifted[j]
    ensures forall i :: 0 <= i < |shifted| ==> 0 < shifted[i] < |rows| && rows[shifted[i]].gemeentenaam != ""
  {
    forall i | 0 <= i < |shifted| ensures 0 < shifted[i] < |rows| && rows[shifted[i]].gemeentenaam != "" {
      assert rows[1..][rest[i]] == rows[shifted[i]];
    }
  }

  /** Every row that carries a municipality name is at a kept position. */
  lemma {:induction false} KeptPositionsComplete(rows: seq<CsvRow>)
    ensures forall p :: 0 <= p < |rows| && rows[p].gemeentenaam != "" ==> p in KeptPositions(rows)
  {
    if rows != [] {
      KeptPositionsComplete(rows[1..]);
      var rest := KeptPositions(rows[1..]);
      var ps := KeptPositions(rows);
      var d := if rows[0].gemeentenaam != "" then 1 else 0;
      forall p | 0 <= p < |rows| && rows[p].gemeentenaam != "" ensures p in ps {
        if p == 0 {
          assert ps[0] == 0;
        } else {
          assert rows[1..][p - 1] == rows[p];
          var k :| 0 <= k < |rest| && rest[k] == p - 1;
          assert ps[k + d] == p;
        }
      }
    }
  }

  /** Every kept record is the renamed row at a kept position, in input order, and no named row is lost. */
  lemma {:induction false} ReadRowsAt(rows: seq<CsvRow>)
    ensures |ReadRows(rows)| == |KeptPositions(rows)|
    ensures forall i :: 0 <= i < |ReadRows(rows)| ==>
              MapRow(rows[KeptPositions(rows)[i]]) == Some(ReadRows(rows)[i])
  {
    if rows != [] {
      ReadRowsAt(rows[1..]);
      var r, ps := ReadRows(rows), KeptPositions(rows);
      var r', ps' := ReadRows(rows[1..]), KeptPositions(rows[1..]);
      var d := if rows[0].gemeentenaam != "" then 1 else 0;
      assert |r| == |r'| + d && |ps| == |ps'| + d;
      forall i | 0 <= i < |r| ensures MapRow(rows[ps[i]]) == Some(r[i]) {
        if i >= d {
          assert r[i] == r'[i - d] && ps[i] == ps'[i - d] + 1;
          assert rows[ps[i]] == rows[1..][ps'[i - d]];
        }
      }
    }
  }

  /** The counts of a sequence of records, in order. */
  function Counts(data: seq<CaseRecord>): (c: seq<int>)
    ensures |c| == |data|
    ensures forall i :: 0 <= i < |data| ==> c[i] == data[i].number
  {
    seq(|data|, i requires 0 <= i < |data| => data[i].number)
  }

  /** `d3.max(data, d => d.number)`: the largest count, or nothing for an empty table. */
  function MaxNumber(data: seq<CaseRecord>): (m: Option<int>)
    ensures m.None? <==> data == []
    ensures m.Some? ==> forall i :: 0 <= i < |data| ==> data[i].number <= m.value
    ensures m.Some? ==> exists i :: 0 <= i < |data| && data[i].number == m.value
  {
    if data == [] then None else Some(Seqs.MaxOf(Counts(data)))
  }
}
