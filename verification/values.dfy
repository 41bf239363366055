/** The values the generator puts into rows. Java hands them around as `Object`: a `String` from
    the scalar generator, an `Integer` or `Long` from key lists and numeric fallbacks, or `null`. */
module Values {
  import opened Strings

  /** A generated value. Java's `Integer` and `Long` are both `VInt`; no reader of a generated row
      distinguishes them. */
  datatype Value = VInt(i: int) | VStr(s: string) | VNull

  /** A generated record: column name to value (a Java `Map<String, Object>`). */
  type Row = map<string, Value>

  /** `Map.get`: the value stored for `column`, or `null` when there is none. */
  function Get(row: Row, column: string): Value {
    if column in row then row[column] else VNull
  }

  /** The key `entries[k]` is put under is not put again later: its value is the one a map keeps
      after all the entries are put in order. */
  predicate LastPut(entries: seq<(string, Value)>, k: int) {
    0 <= k < |entries| && forall j :: k < j < |entries| ==> entries[j].0 != entries[k].0
  }

  /** A fresh `HashMap` after `put(key, value)` for each entry in order: it holds exactly the
      entries' keys (`PutAllKeepsLast` says which value each holds). */
  function PutAll(entries: seq<(string, Value)>): (r: Row)
    ensures r.Keys == set k | 0 <= k < |entries| :: entries[k].0
    decreases |entries|
  {
    if |entries| == 0 then map[]
    else
      var n := |entries| - 1;
      var front := entries[..n];
      assert (set k | 0 <= k < |entries| :: entries[k].0) == (set k | 0 <= k < n :: front[k].0) + {entries[n].0} by {
        assert forall k :: 0 <= k < n ==> front[k] == entries[k];
      }
      PutAll(front)[entries[n].0 := entries[n].1]
  }

  /** A key put more than once holds the value put last. */
  lemma {:induction false} PutAllKeepsLast(entries: seq<(string, Value)>, k: int)
    requires LastPut(entries, k)
    ensures entries[k].0 in PutAll(entries) && PutAll(entries)[entries[k].0] == entries[k].1
    decreases |entries|
  {
    var n := |entries| - 1;
    var front := entries[..n];
    var m := PutAll(front);
    assert PutAll(entries) == m[entries[n].0 := entries[n].1];
    if k < n {
      assert front[k] == entries[k];
      assert entries[n].0 != entries[k].0;
      assert LastPut(front, k) by {
        forall j | k < j < n
          ensures front[j].0 != front[k].0
        {
          assert front[j] == entries[j];
        }
      }
      PutAllKeepsLast(front, k);
    }
  }

  /** Generated records per table name (`Map<String, List<Map<String, Object>>>`). */
  type RowsMap = map<string, seq<Row>>

  /** Generated primary keys per table name (`Map<String, List<Long>>`). */
  type KeysMap = map<string, seq<int>>

  /** `v` is the value of `column` in one of the records stored under `name`. */
  ghost predicate InRows(v: Value, m: RowsMap, name: string, column: string) {
    name in m && exists row :: row in m[name] && v == Get(row, column)
  }

  /** `v` is one of the keys stored under `name`. */
  predicate InKeys(v: Value, m: KeysMap, name: string) {
    name in m && v.VInt? && v.i in m[name]
  }

  /** Java's `index + 1` on an `int`: the generators' fallback value when nothing can be looked
      up for row `i`. */
  function Succ(i: nat): (r: int)
    ensures i < IntMax ==> r == i + 1
  {
    Wrap32(i + 1)
  }
}
