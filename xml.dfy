/**
 * save_to_xml without the file write: the element tree it builds, a
 * "data" root with one flat "item" child per key of the mapping, whose
 * "name" attribute is the key and whose text is str() of the value.
 */
module Xml {
  import opened Wrappers
  import opened Values
  import opened Dicts

  datatype Element = Element(tag: string, attrib: seq<(string, string)>, text: Option<string>, children: seq<Element>)

  function Item(name: string, v: Value, render: Value -> string): Element {
    Element("item", [("name", name)], Some(Str(v, render)), [])
  }

  /** The items for the given keys, in the order of the keys. */
  function Items(keys: seq<string>, entries: map<string, Value>, render: Value -> string): (items: seq<Element>)
    requires forall k :: k in keys ==> k in entries
    ensures |items| == |keys|
  {
    if keys == [] then []
    else
      var n := |keys| - 1;
      Items(keys[..n], entries, render) + [Item(keys[n], entries[keys[n]], render)]
  }

  function Flatten(d: Dict<Value>, render: Value -> string): Element
    requires d.Valid()
  {
    Element("data", [], None, Items(d.keys, d.entries, render))
  }

  /** save_to_xml's loop over data.items(), building the tree it then writes. */
  method SaveToXml(d: Dict<Value>, render: Value -> string) returns (root: Element)
    requires d.Valid()
    ensures root == Flatten(d, render)
    ensures root.tag == "data" && root.attrib == [] && root.text == None
    ensures |root.children| == |d.keys|
    ensures forall i :: 0 <= i < |d.keys| ==>
      && root.children[i].tag == "item"
      && root.children[i].attrib == [("name", d.keys[i])]
      && root.children[i].text == Some(Str(d.entries[d.keys[i]], render))
      && root.children[i].children == []
  {
    root := Element("data", [], None, []);
    var i := 0;
    while i < |d.keys|
      invariant 0 <= i <= |d.keys|
      invariant root == Element("data", [], None, Items(d.keys[..i], d.entries, render))
    {
      var key := d.keys[i];
      var item := Element("item", [], None, []);
      item := item.(attrib := item.attrib + [("name", key)]);
      item := item.(text := Some(Str(d.entries[key], render)));
      assert item == Item(key, d.entries[key], render);
      assert d.keys[..i + 1][..i] == d.keys[..i] && d.keys[..i + 1][i] == key;
      assert Items(d.keys[..i + 1], d.entries, render) == Items(d.keys[..i], d.entries, render) + [item];
      root := root.(children := root.children + [item]);
      i := i + 1;
    }
    assert d.keys[..i] == d.keys;
    ItemsAt(d.keys, d.entries, render);
  }

  lemma {:induction false} ItemsAt(keys: seq<string>, entries: map<string, Value>, render: Value -> string)
    requires forall k :: k in keys ==> k in entries
    ensures forall i :: 0 <= i < |keys| ==> Items(keys, entries, render)[i] == Item(keys[i], entries[keys[i]], render)
  {
    if keys != [] {
      var n := |keys| - 1;
      ItemsAt(keys[..n], entries, render);
    }
  }

  /** What a reader recovers from a list of items: each name attribute with its text, later items winning. */
  function ReadBack(items: seq<Element>): map<string, string> {
    if items == [] then map[]
    else
      var n := |items| - 1;
      var it := items[n];
      if |it.attrib| == 1 && it.attrib[0].0 == "name" && it.text.Some? then
        ReadBack(items[..n])[it.attrib[0].1 := it.text.value]
      else ReadBack(items[..n])
  }

  lemma {:induction false} ReadBackItems(keys: seq<string>, entries: map<string, Value>, render: Value -> string)
    requires forall k :: k in keys ==> k in entries
    ensures ReadBack(Items(keys, entries, render)) == map k | k in keys :: Str(entries[k], render)
  {
    if keys != [] {
      var n := |keys| - 1;
      var items := Items(keys, entries, render);
      assert items[..n] == Items(keys[..n], entries, render);
      ReadBackItems(keys[..n], entries, render);
      assert forall k :: k in keys <==> k in keys[..n] || k == keys[n];
    }
  }

  /**
   * The XML output is a flat summary: every key is recoverable from it, and
   * when every value is a string the mapping itself is.
   */
  lemma FlattenRoundTrip(d: Dict<Value>, render: Value -> string)
    requires d.Valid()
    ensures ReadBack(Flatten(d, render).children).Keys == d.entries.Keys
    ensures (forall k :: k in d.entries ==> d.entries[k].PyStr?) ==>
      ReadBack(Flatten(d, render).children) == map k | k in d.entries :: d.entries[k].s
  {
    ReadBackItems(d.keys, d.entries, render);
  }
}
