/**
A scorecard as a header and records, and the dictionary view the Python tools take of a record.
*/
module Sheets {
  /** A dictionary row; a column the record is too short to fill is simply absent. */
  type Row = map<string, string>

  datatype Sheet = Sheet(header: seq<string>, records: seq<seq<string>>)

  function DictRow(header: seq<string>, record: seq<string>): (row: Row) {
    if header == [] || record == [] then map[]
    else map[header[0] := record[0]] + DictRow(header[1..], record[1..])
  }

  function Get(row: Row, column: string): (v: string) {
    if column in row then row[column] else ""
  }

  /** A record as the dictionary writer emits it: one value per header name. */
  function Written(header: seq<string>, row: Row): (record: seq<string>)
    ensures |record| == |header| && forall i :: 0 <= i < |header| ==> record[i] == Get(row, header[i])
  {
    seq(|header|, i requires 0 <= i < |header| => Get(row, header[i]))
  }

  function RowAt(sheet: Sheet, i: nat): (row: Row)
    requires i < |sheet.records|
  {
    DictRow(sheet.header, sheet.records[i])
  }

  lemma {:induction false} DictKeys(header: seq<string>, record: seq<string>, c: string)
    requires c !in header
    ensures c !in DictRow(header, record)
  {
    if header != [] && record != [] {
      DictKeys(header[1..], record[1..], c);
    }
  }

  lemma {:induction false} WrittenTail(header: seq<string>, row: Row)
    requires header != []
    ensures Written(header, row)[1..] == Written(header[1..], row)
  {
  }

  /** Reading back what was written shows the row, as far as the header names it. */
  lemma {:induction false} WrittenBack(header: seq<string>, row: Row, c: string)
    ensures Get(DictRow(header, Written(header, row)), c) == if c in header then Get(row, c) else ""
    ensures c in DictRow(header, Written(header, row)) <==> c in header
  {
    if header != [] {
      WrittenTail(header, row);
      WrittenBack(header[1..], row, c);
    }
  }

  /** Positions in a record that carry the same name as a later one must agree with it. */
  ghost predicate Consistent(header: seq<string>, record: seq<string>) {
    |record| == |header| && forall i, j :: 0 <= i < j < |header| && header[i] == header[j] ==> record[i] == record[j]
  }

  lemma {:induction false} LastWins(header: seq<string>, record: seq<string>, i: nat)
    requires Consistent(header, record) && i < |header|
    ensures Get(DictRow(header, record), header[i]) == record[i]
  {
    var h, r := header[1..], record[1..];
    if header[0] in h {
      var j :| 0 <= j < |h| && h[j] == header[0];
      assert header[j + 1] == header[0] && record[j + 1] == r[j];
    }
    forall a, b | 0 <= a < b < |h| && h[a] == h[b] ensures r[a] == r[b] {
      assert header[a + 1] == header[b + 1];
    }
    if i > 0 {
      LastWins(h, r, i - 1);
      HasKey(h, r, header[i]);
    } else if header[0] in h {
      var j :| 0 <= j < |h| && h[j] == header[0];
      LastWins(h, r, j);
      HasKey(h, r, header[0]);
    } else {
      DictKeys(h, r, header[0]);
    }
  }

  lemma {:induction false} HasKey(header: seq<string>, record: seq<string>, c: string)
    requires |record| == |header| && c in header
    ensures c in DictRow(header, record)
  {
    if header[0] != c {
      HasKey(header[1..], record[1..], c);
    }
  }

  /**
   Rewriting leaves an untargeted record byte for byte as it was exactly when the record fills the
   header and repeated column names carry equal values.
   */
  lemma {:induction false} RecordKeptIff(header: seq<string>, record: seq<string>)
    ensures Written(header, DictRow(header, record)) == record <==> Consistent(header, record)
  {
    var back := Written(header, DictRow(header, record));
    if Consistent(header, record) {
      forall i | 0 <= i < |header| ensures back[i] == record[i] {
        LastWins(header, record, i);
      }
    } else if |record| == |header| {
      var i, j :| 0 <= i < j < |header| && header[i] == header[j] && record[i] != record[j];
      assert back[i] == back[j];
    }
  }

  /** Two columns of one name: the earlier value is overwritten by the later. */
  lemma {:induction false} RepeatedNameOverwritten()
    ensures Written(["a", "a"], DictRow(["a", "a"], ["1", "2"])) == ["2", "2"]
  {
    assert ["a", "a"][1..] == ["a"] && ["1", "2"][1..] == ["2"];
    assert DictRow(["a"], ["2"]) == map["a" := "2"] by {
      assert DictRow(["a"][1..], ["2"][1..]) == map[];
    }
    assert DictRow(["a", "a"], ["1", "2"])["a"] == "2";
  }
}
