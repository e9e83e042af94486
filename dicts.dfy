/**
 * Python's dict as the extractor uses it: assigning to a key that is
 * already present replaces its value and keeps its position; assigning to
 * a new key appends it. Iteration follows the key order.
 */
module Dicts {
  datatype Dict<V> = Dict(keys: seq<string>, entries: map<string, V>) {
    /** Keys are listed once each, and exactly the keys that have entries. */
    predicate Valid() {
      && (forall i, j :: 0 <= i < j < |keys| ==> keys[i] != keys[j])
      && (forall k :: k in entries ==> k in keys)
      && (forall k :: k in keys ==> k in entries)
    }

    /** d[k] = v */
    function Put(k: string, v: V): (d: Dict<V>)
      requires Valid()
      ensures d.Valid()
      ensures d.entries == entries[k := v]
      ensures k in entries ==> d.keys == keys
      ensures k !in entries ==> d.keys == keys + [k]
    {
      Dict(if k in entries then keys else keys + [k], entries[k := v])
    }
  }

  function Empty<V>(): (d: Dict<V>)
    ensures d.Valid() && d.keys == []
  {
    Dict([], map[])
  }

  /** The name column of a sequence of (name, value) rows. */
  function Names<V>(rows: seq<(string, V)>): (ns: seq<string>)
    ensures |ns| == |rows|
    ensures forall i :: 0 <= i < |rows| ==> ns[i] == rows[i].0
  {
    seq(|rows|, i requires 0 <= i < |rows| => rows[i].0)
  }

  /** Position of the first occurrence of k. */
  function FirstIndex(names: seq<string>, k: string): (i: nat)
    requires k in names
    ensures i < |names| && names[i] == k
    ensures forall j :: 0 <= j < i ==> names[j] != k
  {
    if names[0] == k then 0 else 1 + FirstIndex(names[1..], k)
  }

  /** Position of the last occurrence of k. */
  function LastIndex(names: seq<string>, k: string): (i: nat)
    requires k in names
    ensures i < |names| && names[i] == k
    ensures forall j :: i < j < |names| ==> names[j] != k
  {
    var n := |names| - 1;
    if names[n] == k then n
    else
      assert k in names[..n] by {
        var w :| 0 <= w < |names| && names[w] == k;
        assert names[..n][w] == k;
      }
      LastIndex(names[..n], k)
  }

  /**
   * The comprehension {name: value for name, value in rows}: each row in
   * turn is assigned into the dict.
   */
  function FromRows<V>(rows: seq<(string, V)>): (d: Dict<V>)
    ensures d.Valid()
    ensures forall k :: k in d.entries <==> k in Names(rows)
  {
    if rows == [] then Empty()
    else
      var n := |rows| - 1;
      var d := FromRows(rows[..n]);
      assert Names(rows) == Names(rows[..n]) + [rows[n].0];
      d.Put(rows[n].0, rows[n].1)
  }

  lemma FromRowsSnoc<V>(rows: seq<(string, V)>, r: (string, V))
    ensures FromRows(rows + [r]) == FromRows(rows).Put(r.0, r.1)
  {
    assert (rows + [r])[..|rows|] == rows;
  }

  lemma NamesSnoc<V>(rows: seq<(string, V)>, r: (string, V))
    ensures Names(rows + [r]) == Names(rows) + [r.0]
  {
  }

  lemma {:induction false} FirstIndexSnoc(names: seq<string>, x: string, k: string)
    requires k in names
    ensures FirstIndex(names + [x], k) == FirstIndex(names, k)
  {
    if names[0] != k {
      assert (names + [x])[1..] == names[1..] + [x];
      FirstIndexSnoc(names[1..], x, k);
    }
  }

  lemma LastIndexSnoc(names: seq<string>, x: string, k: string)
    requires k in names && x != k
    ensures LastIndex(names + [x], k) == LastIndex(names, k)
  {
    assert (names + [x])[..|names|] == names;
  }

  /** Last write wins: each key holds the value of the last row with that name. */
  lemma {:induction false} LastRowWins<V>(rows: seq<(string, V)>, k: string)
    requires k in Names(rows)
    ensures k in FromRows(rows).entries
    ensures FromRows(rows).entries[k] == rows[LastIndex(Names(rows), k)].1
  {
    var n := |rows| - 1;
    var prefix := rows[..n];
    assert rows == prefix + [rows[n]];
    NamesSnoc(prefix, rows[n]);
    FromRowsSnoc(prefix, rows[n]);
    if rows[n].0 != k {
      LastIndexSnoc(Names(prefix), rows[n].0, k);
      LastRowWins(prefix, k);
    }
  }

  /** Keys are listed in the order of each name's first occurrence among the rows. */
  lemma {:induction false} KeysInFirstOccurrenceOrder<V>(rows: seq<(string, V)>)
    ensures forall i, j :: 0 <= i < j < |FromRows(rows).keys| ==>
      FirstIndex(Names(rows), FromRows(rows).keys[i]) < FirstIndex(Names(rows), FromRows(rows).keys[j])
  {
    if rows != [] {
      var n := |rows| - 1;
      var prefix := rows[..n];
      var r := rows[n];
      assert rows == prefix + [r];
      KeysInFirstOccurrenceOrder(prefix);
      NamesSnoc(prefix, r);
      FromRowsSnoc(prefix, r);
      var old_keys := FromRows(prefix).keys;
      var ns := Names(prefix);
      forall k | k in old_keys
        ensures FirstIndex(ns + [r.0], k) == FirstIndex(ns, k)
      {
        FirstIndexSnoc(ns, r.0, k);
      }
      if r.0 !in ns {
        assert FirstIndex(ns + [r.0], r.0) == |ns|;
      }
    }
  }
}
