/**
 * The Python values that flow through the extractor: what sqlite3 returns
 * for a table cell, and what plistlib returns when it decodes a property
 * list (dictionaries, lists, strings, numbers, booleans, bytes, dates,
 * archiver UIDs and None).
 */
module Values {
  newtype byte = b: int | 0 <= b < 256

  /** A float is modelled as a real; a datetime by its seconds since an epoch. */
  datatype Value =
    | PyNone
    | PyBool(b: bool)
    | PyInt(i: int)
    | PyFloat(f: real)
    | PyStr(s: string)
    | PyBytes(data: seq<byte>)
    | PyDatetime(seconds: real)
    | PyUid(uid: nat)
    | PyList(items: seq<Value>)
    | PyDict(entries: seq<(string, Value)>)

  /** The scalar kinds json.dumps's default encoder refuses with TypeError. */
  predicate Rejected(v: Value) {
    v.PyBytes? || v.PyDatetime? || v.PyUid?
  }

  /**
   * True when json.dumps can serialise the value with its default encoder:
   * bytes, datetime and plistlib UID objects make it raise TypeError,
   * wherever they sit in the tree.
   */
  predicate JsonEncodable(v: Value)
    ensures Rejected(v) ==> !JsonEncodable(v)
    ensures !Rejected(v) && !v.PyList? && !v.PyDict? ==> JsonEncodable(v)
  {
    match v
    case PyBytes(_) => false
    case PyDatetime(_) => false
    case PyUid(_) => false
    case PyList(items) => forall i :: 0 <= i < |items| ==> JsonEncodable(items[i])
    case PyDict(entries) => forall i :: 0 <= i < |entries| ==> JsonEncodable(entries[i].1)
    case _ => true
  }

  /** The scalars of a value, in the order json.dumps visits them: list items and dict values are descended into. */
  function Scalars(v: Value): (r: seq<Value>)
    decreases v, 1
  {
    match v
    case PyList(items) => ScalarsOfItems(items)
    case PyDict(entries) => ScalarsOfEntries(entries)
    case _ => [v]
  }

  function ScalarsOfItems(items: seq<Value>): seq<Value>
    decreases items, 0
  {
    if items == [] then [] else Scalars(items[0]) + ScalarsOfItems(items[1..])
  }

  function ScalarsOfEntries(entries: seq<(string, Value)>): seq<Value>
    decreases entries, 0
  {
    if entries == [] then []
    else
      assert entries[0].1 < entries[0];
      Scalars(entries[0].1) + ScalarsOfEntries(entries[1..])
  }

  predicate NoneRejected(s: seq<Value>) {
    forall i :: 0 <= i < |s| ==> !Rejected(s[i])
  }

  lemma NoneRejectedAppend(a: seq<Value>, b: seq<Value>)
    ensures NoneRejected(a + b) <==> NoneRejected(a) && NoneRejected(b)
  {
    if NoneRejected(a) && NoneRejected(b) {
      forall i | 0 <= i < |a + b| ensures !Rejected((a + b)[i]) {
        if i >= |a| {
          assert (a + b)[i] == b[i - |a|];
        }
      }
    }
    if NoneRejected(a + b) {
      forall i | 0 <= i < |a| ensures !Rejected(a[i]) {
        assert (a + b)[i] == a[i];
      }
      forall i | 0 <= i < |b| ensures !Rejected(b[i]) {
        assert (a + b)[|a| + i] == b[i];
      }
    }
  }

  /** json.dumps raises exactly when some scalar of the tree is bytes, a datetime or a UID. */
  lemma {:induction false} EncodableIffNoRejectedScalar(v: Value)
    ensures JsonEncodable(v) <==> NoneRejected(Scalars(v))
    decreases v, 1
  {
    match v
    case PyList(items) => ItemsEncodable(items);
    case PyDict(entries) => EntriesEncodable(entries);
    case _ => assert Scalars(v)[0] == v;
  }

  lemma {:induction false} ItemsEncodable(items: seq<Value>)
    ensures (forall i :: 0 <= i < |items| ==> JsonEncodable(items[i])) <==> NoneRejected(ScalarsOfItems(items))
    decreases items, 0
  {
    if items != [] {
      EncodableIffNoRejectedScalar(items[0]);
      ItemsEncodable(items[1..]);
      NoneRejectedAppend(Scalars(items[0]), ScalarsOfItems(items[1..]));
      assert forall i :: 1 <= i < |items| ==> items[i] == items[1..][i - 1];
    }
  }

  lemma {:induction false} EntriesEncodable(entries: seq<(string, Value)>)
    ensures (forall i :: 0 <= i < |entries| ==> JsonEncodable(entries[i].1)) <==> NoneRejected(ScalarsOfEntries(entries))
    decreases entries, 0
  {
    if entries != [] {
      assert entries[0].1 < entries[0];
      EncodableIffNoRejectedScalar(entries[0].1);
      EntriesEncodable(entries[1..]);
      NoneRejectedAppend(Scalars(entries[0].1), ScalarsOfEntries(entries[1..]));
      assert forall i :: 1 <= i < |entries| ==> entries[i] == entries[1..][i - 1];
    }
  }

  /**
   * Python's str(v): a string renders as itself; how any other value is
   * rendered is left to the given function.
   */
  function Str(v: Value, render: Value -> string): (r: string)
    ensures v.PyStr? ==> r == v.s
  {
    if v.PyStr? then v.s else render(v)
  }
}
