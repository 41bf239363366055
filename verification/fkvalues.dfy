/** The foreign-key value generator: the value of a foreign-key column that no relationship
    covers, looked up in the referenced table's generated records or keys. The key- and
    data-based entry points try six spellings of the referenced table's name; an unresolved
    reference is null, because `isForeignKeyColumnNullable` answers true for every key. */
module ForeignKeyValues {
  import opened Wrappers
  import opened Strings
  import opened Schema
  import opened Values

  /** The names a referenced table is looked up under, in this order: as written, unqualified,
      upper case, lower case, unqualified upper case, unqualified lower case. */
  function TableSpellings(name: string): seq<string> {
    [name, Unqualified(name), Upper(name), Lower(name), Upper(Unqualified(name)), Lower(Unqualified(name))]
  }

  /** A non-empty key list is stored under `name`. */
  predicate HasKeys(keys: KeysMap, name: string) {
    name in keys && |keys[name]| > 0
  }

  /** The key of row `i` under `name`: round-robin over the list. */
  function PickedKey(keys: KeysMap, name: string, i: nat): (r: int)
    requires HasKeys(keys, name)
    ensures r in keys[name]
  {
    keys[name][i % |keys[name]|]
  }

  /** The first spelling with keys decides. When `skipZero` holds, as in the data-based entry
      point, a picked key equal to 0 is passed over and the next spelling is tried. */
  function FirstKey(names: seq<string>, keys: KeysMap, i: nat, skipZero: bool): (r: Option<int>)
    ensures r.Some? ==> exists name :: name in names && InKeys(VInt(r.value), keys, name)
    ensures r.Some? && skipZero ==> r.value != 0
    ensures !skipZero ==> (r.None? <==> forall name :: name in names ==> !HasKeys(keys, name))
    decreases |names|
  {
    if |names| == 0 then None
    else if HasKeys(keys, names[0]) && !(skipZero && PickedKey(keys, names[0], i) == 0) then
      assert InKeys(VInt(PickedKey(keys, names[0], i)), keys, names[0]);
      Some(PickedKey(keys, names[0], i))
    else
      var r := FirstKey(names[1..], keys, i, skipZero);
      assert forall name :: name in names[1..] ==> name in names;
      assert names == [names[0]] + names[1..];
      r
  }

  /** The column names tried, in order, on a picked record whose referenced column is null: the
      column, `id`, `<table>_id` when the spelling tried is qualified (the column again when it is
      not), `pk_<column>`, and the column in upper and in lower case. */
  function ColumnSpellings(tableName: string, column: string): seq<string> {
    [column, "id", if '.' in tableName then Unqualified(tableName) + "_id" else column,
     "pk_" + column, Upper(column), Lower(column)]
  }

  /** The first non-null value of `rec` under one of `columns`. */
  function FirstPresent(rec: Row, columns: seq<string>): (r: Option<Value>)
    ensures r.Some? ==> r.value != VNull && r.value in rec.Values
    ensures r.None? <==> forall c :: c in columns ==> Get(rec, c) == VNull
    decreases |columns|
  {
    if |columns| == 0 then None
    else if Get(rec, columns[0]) != VNull then Some(Get(rec, columns[0]))
    else
      var r := FirstPresent(rec, columns[1..]);
      assert columns == [columns[0]] + columns[1..];
      r
  }

  /** `anyValue` answers as an iterator over a record's values does: with one of them. */
  ghost predicate IteratorValue(anyValue: Row -> Value) {
    forall rec: Row :: |rec| > 0 ==> anyValue(rec) in rec.Values
  }

  /** What a picked record yields: its referenced column, else the first non-null column among the
      alternative spellings, else, when the record has any column at all, the value its iterator
      yields first. `anyValue` stands for that value: HashMap iteration order is not modelled. An
      empty record yields nothing and the next table spelling is tried. */
  function RecordValue(rec: Row, tableName: string, column: string, anyValue: Row -> Value): (r: Option<Value>)
    ensures Get(rec, column) != VNull ==> r == Some(Get(rec, column))
    ensures r.None? <==> |rec| == 0
    ensures r.Some? && r.value != anyValue(rec) ==> r.value != VNull && r.value in rec.Values
    ensures IteratorValue(anyValue) && r.Some? ==> r.value in rec.Values
  {
    var v := Get(rec, column);
    if v != VNull then Some(v)
    else
      match FirstPresent(rec, ColumnSpellings(tableName, column))
      case Some(w) => Some(w)
      case None => if |rec| > 0 then Some(anyValue(rec)) else None
  }

  /** The record of row `i` under `name`: round-robin over the non-empty list. */
  function PickedRecord(data: RowsMap, name: string, i: nat): (r: Row)
    requires name in data && |data[name]| > 0
    ensures r in data[name]
  {
    data[name][i % |data[name]|]
  }

  /** The first spelling whose picked record yields something decides. */
  function FirstRecordValue(names: seq<string>, data: RowsMap, i: nat, column: string,
                            anyValue: Row -> Value): (r: Option<Value>)
    ensures r.None? <==> forall name :: name in names && name in data && |data[name]| > 0 ==>
      |PickedRecord(data, name, i)| == 0
    decreases |names|
  {
    if |names| == 0 then None
    else
      var rest := FirstRecordValue(names[1..], data, i, column, anyValue);
      assert names == [names[0]] + names[1..];
      if names[0] in data && |data[names[0]]| > 0 then
        match RecordValue(PickedRecord(data, names[0], i), names[0], column, anyValue)
        case Some(v) => Some(v)
        case None => rest
      else rest
  }

  // ---------------------------------------------------------------------------
  // Entry points
  // ---------------------------------------------------------------------------

  /** `generateFromFakeData`: round-robin over the records stored under the unqualified
      referenced table name, else `index + 1`. */
  function FromRows(fk: ForeignKey, rows: RowsMap, i: nat): (r: Value)
    ensures var t := Unqualified(fk.referencedTableName);
      t in rows && |rows[t]| > 0 ==> InRows(r, rows, t, fk.referencedColumnName)
    ensures var t := Unqualified(fk.referencedTableName);
      !(t in rows && |rows[t]| > 0) ==> r == VInt(Succ(i))
  {
    var t := Unqualified(fk.referencedTableName);
    if t in rows && |rows[t]| > 0 then
      var rec := rows[t][i % |rows[t]|];
      assert rec in rows[t];
      Get(rec, fk.referencedColumnName)
    else VInt(Succ(i))
  }

  /** `generateFromKeys`: the picked key of the first spelling with keys, else null. */
  function FromKeys(fk: ForeignKey, keys: KeysMap, i: nat): (r: Value)
    ensures r == VNull <==> forall name :: name in TableSpellings(fk.referencedTableName) ==> !HasKeys(keys, name)
    ensures r != VNull ==> exists name :: name in TableSpellings(fk.referencedTableName) && InKeys(r, keys, name)
  {
    KeyOrNull(TableSpellings(fk.referencedTableName), keys, i)
  }

  /** The picked key of the first of `names` with keys, else null. */
  function KeyOrNull(names: seq<string>, keys: KeysMap, i: nat): (r: Value)
    ensures r == VNull <==> forall name :: name in names ==> !HasKeys(keys, name)
    ensures r != VNull ==> exists name :: name in names && InKeys(r, keys, name)
  {
    match FirstKey(names, keys, i, false)
    case Some(k) => VInt(k)
    case None => VNull
  }

  /** `generateFromData`: a non-zero picked key of the first spelling that has one, else the
      value of the first spelling whose picked record yields one, else null. */
  function FromData(fk: ForeignKey, keys: KeysMap, data: RowsMap, i: nat, anyValue: Row -> Value): (r: Value)
    ensures r.VInt? && r.i == 0 ==>
      FirstRecordValue(TableSpellings(fk.referencedTableName), data, i, fk.referencedColumnName, anyValue) == Some(r)
  {
    var names := TableSpellings(fk.referencedTableName);
    match FirstKey(names, keys, i, true)
    case Some(k) => VInt(k)
    case None =>
      match FirstRecordValue(names, data, i, fk.referencedColumnName, anyValue)
      case Some(v) => v
      case None => VNull
  }

  // ---------------------------------------------------------------------------
  // Properties
  // ---------------------------------------------------------------------------

  /** Keys stored under the name exactly as written take precedence over every other spelling. */
  lemma KeysPreferNameAsWritten(fk: ForeignKey, keys: KeysMap, i: nat)
    requires HasKeys(keys, fk.referencedTableName)
    ensures FromKeys(fk, keys, i) == VInt(PickedKey(keys, fk.referencedTableName, i))
  {
  }

  /** A schema-qualified, upper-case reference still finds keys stored under the plain
      lower-case table name. */
  lemma KeysFoundUnderLowerUnqualified(fk: ForeignKey, keys: KeysMap, i: nat)
    requires HasKeys(keys, Lower(Unqualified(fk.referencedTableName)))
    ensures FromKeys(fk, keys, i) != VNull
  {
    assert Lower(Unqualified(fk.referencedTableName)) in TableSpellings(fk.referencedTableName);
  }

  /** Without zero keys in play, skipping zeros changes nothing. */
  lemma {:induction false} SkipZeroHarmless(names: seq<string>, keys: KeysMap, i: nat)
    requires forall name :: name in names && HasKeys(keys, name) ==> PickedKey(keys, name, i) != 0
    ensures FirstKey(names, keys, i, true) == FirstKey(names, keys, i, false)
    decreases |names|
  {
    if |names| > 0 {
      assert forall name :: name in names[1..] ==> name in names;
      SkipZeroHarmless(names[1..], keys, i);
    }
  }

  /** When the picked keys are non-zero and some spelling has keys, the data-based entry point
      answers exactly as the key-based one, whatever the records say. */
  lemma DataAgreesWithKeys(fk: ForeignKey, keys: KeysMap, data: RowsMap, i: nat, anyValue: Row -> Value)
    requires forall name :: name in TableSpellings(fk.referencedTableName) && HasKeys(keys, name) ==>
      PickedKey(keys, name, i) != 0
    requires exists name :: name in TableSpellings(fk.referencedTableName) && HasKeys(keys, name)
    ensures FromData(fk, keys, data, i, anyValue) == FromKeys(fk, keys, i)
  {
    var names := TableSpellings(fk.referencedTableName);
    SkipZeroHarmless(names, keys, i);
    var k := FirstKey(names, keys, i, false);
    assert k.Some?;
    assert FromData(fk, keys, data, i, anyValue) == VInt(k.value);
  }

  /** With no keys at all, a record stored under the name as written whose referenced column is
      set supplies that value. */
  lemma DataFallsBackToRecords(fk: ForeignKey, data: RowsMap, i: nat, anyValue: Row -> Value)
    requires fk.referencedTableName in data && |data[fk.referencedTableName]| > 0
    requires Get(PickedRecord(data, fk.referencedTableName, i), fk.referencedColumnName) != VNull
    ensures FromData(fk, map[], data, i, anyValue) ==
      Get(PickedRecord(data, fk.referencedTableName, i), fk.referencedColumnName)
  {
    var names := TableSpellings(fk.referencedTableName);
    assert FirstKey(names, map[], i, true).None? by {
      SkipZeroHarmless(names, map[], i);
    }
  }

  /** A picked record with a null referenced column falls back to its `id` column. */
  lemma RecordFallsBackToId(rec: Row, tableName: string, column: string, anyValue: Row -> Value)
    requires Get(rec, column) == VNull && Get(rec, "id") != VNull
    ensures RecordValue(rec, tableName, column, anyValue) == Some(Get(rec, "id"))
  {
    var cs := ColumnSpellings(tableName, column);
    assert cs[1..][0] == "id";
    assert FirstPresent(rec, cs) == FirstPresent(rec, cs[1..]);
  }

  /** A reference nothing resolves is null in the key-based entry point ... */
  lemma KeysUnresolvedIsNull(fk: ForeignKey, i: nat)
    ensures FromKeys(fk, map[], i) == VNull
  {
    assert FirstKey(TableSpellings(fk.referencedTableName), map[], i, false).None?;
  }

  /** ... and in the data-based one. */
  lemma DataUnresolvedIsNull(fk: ForeignKey, i: nat, anyValue: Row -> Value)
    ensures FromData(fk, map[], map[], i, anyValue) == VNull
  {
    var names := TableSpellings(fk.referencedTableName);
    SkipZeroHarmless(names, map[], i);
    assert FirstKey(names, map[], i, true).None?;
    assert FirstRecordValue(names, map[], i, fk.referencedColumnName, anyValue).None?;
  }
}
