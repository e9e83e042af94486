/**
 * The payload mapping: of the payload table's rows, only those named
 * "main" or "UIMetadata" are decoded as property lists, and a row is
 * stored only when decoding yields something other than None.
 */
module Payload {
  import opened Wrappers
  import opened Values
  import opened Dicts

  const AllowList: seq<string> := ["main", "UIMetadata"]

  /**
   * convert_bplist_to_json: plistlib.loads, given as a decoder whose None
   * stands for a raised exception; the exception becomes Python's None.
   */
  function ConvertBplist(v: Value, loads: Value -> Option<Value>): (r: Value)
    ensures loads(v).Some? ==> r == loads(v).value
    ensures loads(v).None? ==> r == PyNone
  {
    match loads(v)
    case Some(t) => t
    case None => PyNone
  }

  /** Whether the loop stores the row: its name is allowed and its value decodes to something other than None. */
  predicate Stored(r: (string, Value), loads: Value -> Option<Value>) {
    r.0 in AllowList && ConvertBplist(r.1, loads) != PyNone
  }

  /** The assignments the loop performs, in order: each stored row with its decoded value. */
  function Decoded(rows: seq<(string, Value)>, loads: Value -> Option<Value>): (ds: seq<(string, Value)>)
    ensures |ds| <= |rows|
    ensures forall i :: 0 <= i < |ds| ==> ds[i].0 in AllowList && ds[i].1 != PyNone
  {
    if rows == [] then []
    else
      var n := |rows| - 1;
      var r := rows[n];
      Decoded(rows[..n], loads) + if Stored(r, loads) then [(r.0, ConvertBplist(r.1, loads))] else []
  }

  /** The payload_dict that the loop builds. */
  function PayloadOf(rows: seq<(string, Value)>, loads: Value -> Option<Value>): (d: Dict<Value>)
    ensures d.Valid()
    ensures forall k :: k in d.entries ==> k in AllowList && d.entries[k] != PyNone
  {
    var ds := Decoded(rows, loads);
    var d := FromRows(ds);
    assert forall k :: k in d.entries ==> k in AllowList by {
      forall k | k in d.entries ensures k in AllowList {
        var i :| 0 <= i < |ds| && Names(ds)[i] == k;
      }
    }
    forall k | k in d.entries ensures d.entries[k] != PyNone {
      LastRowWins(ds, k);
    }
    d
  }

  /** The loop of process_file over the payload rows. */
  method BuildPayload(rows: seq<(string, Value)>, loads: Value -> Option<Value>) returns (d: Dict<Value>)
    ensures d == PayloadOf(rows, loads)
  {
    d := Empty();
    var i := 0;
    while i < |rows|
      invariant 0 <= i <= |rows|
      invariant d == PayloadOf(rows[..i], loads)
    {
      var row := rows[i];
      assert rows[..i + 1] == rows[..i] + [row];
      PayloadSnoc(rows[..i], row, loads);
      if row.0 in AllowList {
        var data := ConvertBplist(row.1, loads);
        if data != PyNone {
          d := d.Put(row.0, data);
        }
      }
      i := i + 1;
    }
    assert rows[..i] == rows;
  }

  lemma DecodedSnoc(rows: seq<(string, Value)>, r: (string, Value), loads: Value -> Option<Value>)
    ensures Decoded(rows + [r], loads) ==
      Decoded(rows, loads) + if Stored(r, loads) then [(r.0, ConvertBplist(r.1, loads))] else []
  {
    assert (rows + [r])[..|rows|] == rows;
  }

  lemma PayloadSnoc(rows: seq<(string, Value)>, r: (string, Value), loads: Value -> Option<Value>)
    ensures PayloadOf(rows + [r], loads) ==
      if Stored(r, loads) then PayloadOf(rows, loads).Put(r.0, ConvertBplist(r.1, loads))
      else PayloadOf(rows, loads)
  {
    DecodedSnoc(rows, r, loads);
    var ds := Decoded(rows, loads);
    assert PayloadOf(rows, loads) == FromRows(ds);
    if Stored(r, loads) {
      var pair := (r.0, ConvertBplist(r.1, loads));
      assert PayloadOf(rows + [r], loads) == FromRows(ds + [pair]);
      FromRowsSnoc(ds, pair);
    } else {
      assert Decoded(rows + [r], loads) == ds;
    }
  }

  lemma {:induction false} DecodedAppend(a: seq<(string, Value)>, b: seq<(string, Value)>, loads: Value -> Option<Value>)
    ensures Decoded(a + b, loads) == Decoded(a, loads) + Decoded(b, loads)
  {
    if b != [] {
      var n := |b| - 1;
      assert a + b == (a + b[..n]) + [b[n]];
      assert b == b[..n] + [b[n]];
      DecodedSnoc(a + b[..n], b[n], loads);
      DecodedSnoc(b[..n], b[n], loads);
      DecodedAppend(a, b[..n], loads);
    } else {
      assert a + b == a;
    }
  }

  /**
   * A row that is not stored, because its name is outside the allow-list or
   * because it does not decode, has no effect on the mapping wherever it
   * stands: in particular a later failed decode never removes an earlier entry.
   */
  lemma UnstoredRowIsInert(pre: seq<(string, Value)>, r: (string, Value), post: seq<(string, Value)>,
                           loads: Value -> Option<Value>)
    requires !Stored(r, loads)
    ensures PayloadOf(pre + [r] + post, loads) == PayloadOf(pre + post, loads)
  {
    DecodedAppend(pre + [r], post, loads);
    DecodedSnoc(pre, r, loads);
    DecodedAppend(pre, post, loads);
    assert Decoded(pre + [r] + post, loads) == Decoded(pre + post, loads);
  }

  /** Some row named k decodes to something other than None. */
  predicate DecodesSomewhere(rows: seq<(string, Value)>, loads: Value -> Option<Value>, k: string) {
    exists i :: 0 <= i < |rows| && rows[i].0 == k && ConvertBplist(rows[i].1, loads) != PyNone
  }

  /** Row i is named k and decodes to v, and every later row named k fails to decode. */
  predicate LastDecodeAt(rows: seq<(string, Value)>, loads: Value -> Option<Value>, k: string, i: int, v: Value) {
    && 0 <= i < |rows| && rows[i].0 == k && ConvertBplist(rows[i].1, loads) == v
    && forall j :: i < j < |rows| && rows[j].0 == k ==> ConvertBplist(rows[j].1, loads) == PyNone
  }

  /** A key is present exactly when it is allowed and some row of that name decodes. */
  lemma {:induction false} PayloadKeyPresent(rows: seq<(string, Value)>, loads: Value -> Option<Value>, k: string)
    ensures k in PayloadOf(rows, loads).entries <==> k in AllowList && DecodesSomewhere(rows, loads, k)
  {
    if rows != [] {
      var n := |rows| - 1;
      var prefix, r := rows[..n], rows[n];
      assert rows == prefix + [r];
      PayloadSnoc(prefix, r, loads);
      PayloadKeyPresent(prefix, loads, k);
      DecodesSomewhereSnoc(prefix, r, loads, k);
    }
  }

  lemma DecodesSomewhereSnoc(rows: seq<(string, Value)>, r: (string, Value), loads: Value -> Option<Value>, k: string)
    ensures DecodesSomewhere(rows + [r], loads, k) <==>
      DecodesSomewhere(rows, loads, k) || (r.0 == k && ConvertBplist(r.1, loads) != PyNone)
  {
    var s := rows + [r];
    if DecodesSomewhere(s, loads, k) && !(r.0 == k && ConvertBplist(r.1, loads) != PyNone) {
      var i :| 0 <= i < |s| && s[i].0 == k && ConvertBplist(s[i].1, loads) != PyNone;
      assert i < |rows| && s[i] == rows[i];
    }
    if DecodesSomewhere(rows, loads, k) {
      var i :| 0 <= i < |rows| && rows[i].0 == k && ConvertBplist(rows[i].1, loads) != PyNone;
      assert s[i] == rows[i];
    }
    if r.0 == k && ConvertBplist(r.1, loads) != PyNone {
      assert s[|rows|] == r;
    }
  }

  /**
   * A present key holds the decode of the last row of that name that
   * decodes, whatever failed rows of that name follow it.
   */
  lemma {:induction false} PayloadKeyLastDecode(rows: seq<(string, Value)>, loads: Value -> Option<Value>, k: string)
    requires k in PayloadOf(rows, loads).entries
    ensures exists i :: LastDecodeAt(rows, loads, k, i, PayloadOf(rows, loads).entries[k])
  {
    var n := |rows| - 1;
    var prefix, r := rows[..n], rows[n];
    assert rows == prefix + [r];
    PayloadSnoc(prefix, r, loads);
    var v := PayloadOf(rows, loads).entries[k];
    if Stored(r, loads) && r.0 == k {
      assert LastDecodeAt(rows, loads, k, n, v);
    } else {
      PayloadKeyLastDecode(prefix, loads, k);
      var i :| LastDecodeAt(prefix, loads, k, i, v);
      LastDecodeSnoc(prefix, r, loads, k, i, v);
    }
  }

  lemma LastDecodeSnoc(rows: seq<(string, Value)>, r: (string, Value), loads: Value -> Option<Value>,
                       k: string, i: int, v: Value)
    requires LastDecodeAt(rows, loads, k, i, v)
    requires r.0 == k ==> ConvertBplist(r.1, loads) == PyNone
    ensures LastDecodeAt(rows + [r], loads, k, i, v)
  {
    var s := rows + [r];
    assert s[i] == rows[i];
    forall j | i < j < |s| && s[j].0 == k ensures ConvertBplist(s[j].1, loads) == PyNone {
      if j < |rows| {
        assert s[j] == rows[j];
      }
    }
  }
}
