// The `settings` key/value table: reading one key, the upsert that writes one, and
// the dictionary of every row.

module SettingModel {
  import opened Wrappers

  /** A row of `settings`; the value column is nullable. */
  datatype Setting = Setting(key: string, value: Option<string>)

  /** `key` is the primary key. */
  predicate UniqueKeys(rows: seq<Setting>) {
    forall i, j :: 0 <= i < j < |rows| ==> rows[i].key != rows[j].key
  }

  function Keys(rows: seq<Setting>): set<string> {
    set i | 0 <= i < |rows| :: rows[i].key
  }

  /** `get(key)`: `undefined` (outer `None`) when no row has the key, otherwise the row's
      value, which may be `NULL` (inner `None`). */
  function Get(rows: seq<Setting>, key: string): Option<Option<string>> {
    if rows == [] then None
    else if rows[0].key == key then Some(rows[0].value)
    else Get(rows[1..], key)
  }

  /** `set(key, value)`: `INSERT … ON CONFLICT (key) DO UPDATE`. */
  function Set(rows: seq<Setting>, key: string, value: Option<string>): seq<Setting> {
    if rows == [] then [Setting(key, value)]
    else if rows[0].key == key then [Setting(key, value)] + rows[1..]
    else [rows[0]] + Set(rows[1..], key, value)
  }

  lemma KeysCons(rows: seq<Setting>)
    requires rows != []
    ensures Keys(rows) == {rows[0].key} + Keys(rows[1..])
  {
    forall k | k in Keys(rows) ensures k in {rows[0].key} + Keys(rows[1..]) {
      var i :| 0 <= i < |rows| && rows[i].key == k;
      if i > 0 {
        assert rows[1..][i - 1].key == k;
      }
    }
    forall k | k in Keys(rows[1..]) ensures k in Keys(rows) {
      var i :| 0 <= i < |rows[1..]| && rows[1..][i].key == k;
      assert rows[i + 1].key == k;
    }
  }

  /** `get` of an absent key is `undefined`. */
  lemma {:induction false} GetAbsent(rows: seq<Setting>, key: string)
    ensures Get(rows, key).None? <==> key !in Keys(rows)
  {
    if rows != [] {
      GetAbsent(rows[1..], key);
      KeysCons(rows);
    }
  }

  /** After `set(k, v)`, `get(k)` is `v` and every other key reads as before. */
  lemma {:induction false} SetGet(rows: seq<Setting>, key: string, value: Option<string>, k: string)
    ensures Get(Set(rows, key, value), k) == if k == key then Some(value) else Get(rows, k)
  {
    if rows != [] && rows[0].key != key {
      SetGet(rows[1..], key, value, k);
    }
  }

  /** `set` adds its key to the keys, and keeps them unique. */
  lemma {:induction false} SetKeys(rows: seq<Setting>, key: string, value: Option<string>)
    requires UniqueKeys(rows)
    ensures Keys(Set(rows, key, value)) == Keys(rows) + {key}
    ensures UniqueKeys(Set(rows, key, value))
  {
    var r := Set(rows, key, value);
    if rows == [] {
      assert r == [Setting(key, value)];
      KeysCons(r);
      assert Keys(r[1..]) == {};
    } else if rows[0].key == key {
      KeysCons(rows);
      KeysCons(r);
      assert r[1..] == rows[1..];
    } else {
      var rest := rows[1..];
      assert UniqueKeys(rest) by {
        forall i, j | 0 <= i < j < |rest| ensures rest[i].key != rest[j].key {
          assert rest[i] == rows[i + 1] && rest[j] == rows[j + 1];
        }
      }
      SetKeys(rest, key, value);
      assert r[1..] == Set(rest, key, value);
      KeysCons(rows);
      KeysCons(r);
      UniqueCons(r);
    }
  }

  /** A row list is unique when its tail is and its head's key is not among the tail's. */
  lemma UniqueCons(rows: seq<Setting>)
    requires rows != [] && UniqueKeys(rows[1..]) && rows[0].key !in Keys(rows[1..])
    ensures UniqueKeys(rows)
  {
    forall i, j | 0 <= i < j < |rows| ensures rows[i].key != rows[j].key {
      assert rows[j] == rows[1..][j - 1];
      if i > 0 {
        assert rows[i] == rows[1..][i - 1];
      }
    }
  }

  /** Writing the value a key already has changes nothing. */
  lemma {:induction false} SetSameValue(rows: seq<Setting>, key: string)
    requires Get(rows, key).Some?
    ensures Set(rows, key, Get(rows, key).value) == rows
  {
    if rows[0].key != key {
      SetSameValue(rows[1..], key);
    } else {
      assert rows == [rows[0]] + rows[1..];
    }
  }

  // ---------------------------------------------------------------- getAll

  /** The dictionary `getAll` fills, row by row: a later row overwrites an earlier one. */
  function Dictionary(rows: seq<Setting>): map<string, Option<string>>
    decreases |rows|
  {
    if rows == [] then map[]
    else Dictionary(rows[..|rows| - 1])[rows[|rows| - 1].key := rows[|rows| - 1].value]
  }

  /** `getAll`: one entry per row, `settings[row.key] = row.value`. */
  method GetAll(rows: seq<Setting>) returns (settings: map<string, Option<string>>)
    ensures settings == Dictionary(rows)
  {
    settings := map[];
    var i := 0;
    while i < |rows|
      invariant 0 <= i <= |rows|
      invariant settings == Dictionary(rows[..i])
    {
      assert rows[..i + 1][..i] == rows[..i];
      settings := settings[rows[i].key := rows[i].value];
      i := i + 1;
    }
    assert rows[..i] == rows;
  }

  /** With unique keys, `get` reads a row's own value. */
  lemma {:induction false} GetRow(rows: seq<Setting>, i: int)
    requires UniqueKeys(rows) && 0 <= i < |rows|
    ensures Get(rows, rows[i].key) == Some(rows[i].value)
  {
    if i > 0 {
      assert UniqueKeys(rows[1..]) by {
        forall a, b | 0 <= a < b < |rows| - 1 ensures rows[1..][a].key != rows[1..][b].key {
          assert rows[1..][a] == rows[a + 1] && rows[1..][b] == rows[b + 1];
        }
      }
      GetRow(rows[1..], i - 1);
    }
  }

  /** With unique keys the dictionary `getAll` builds has exactly the rows' keys and
      agrees with `get` on each. */
  lemma {:induction false} DictionaryGet(rows: seq<Setting>, k: string)
    requires UniqueKeys(rows)
    ensures k in Dictionary(rows) <==> k in Keys(rows)
    ensures k in Dictionary(rows) ==> Get(rows, k) == Some(Dictionary(rows)[k])
    decreases |rows|
  {
    if rows != [] {
      var n := |rows| - 1;
      var front := rows[..n];
      assert UniqueKeys(front);
      DictionaryGet(front, k);
      assert front + [rows[n]] == rows;
      GetSnoc(front, rows[n], k);
      if k in Keys(rows) && k != rows[n].key {
        var i :| 0 <= i < |rows| && rows[i].key == k;
        assert front[i].key == k;
      }
    }
  }

  /** `getAll` maps each row's key to that row's value. */
  lemma DictionaryRow(rows: seq<Setting>, i: int)
    requires UniqueKeys(rows) && 0 <= i < |rows|
    ensures rows[i].key in Dictionary(rows) && Dictionary(rows)[rows[i].key] == rows[i].value
  {
    DictionaryGet(rows, rows[i].key);
    GetRow(rows, i);
  }

  lemma {:induction false} GetSnoc(rows: seq<Setting>, last: Setting, k: string)
    requires forall i :: 0 <= i < |rows| ==> rows[i].key != last.key
    ensures Get(rows + [last], k) == if k == last.key then Some(last.value) else Get(rows, k)
  {
    if rows != [] {
      assert (rows + [last])[1..] == rows[1..] + [last];
      GetSnoc(rows[1..], last, k);
    }
  }
}
