/** The page's `localStorage`: a flat, total map from string keys to string values. */
module Store {
  import opened JsValues

  /** The value stored under `key`, or `null` when the key is absent. */
  function Get(items: map<string, string>, key: string): (r: Option<string>)
    ensures r.Some? <==> key in items
    ensures r.Some? ==> r.value == items[key]
  {
    if key in items then Some(items[key]) else None
  }

  /** Reading a key back after writing it gives the value written; every other
      key reads as before. */
  lemma GetAfterSet(items: map<string, string>, key: string, value: string, other: string)
    ensures Get(items[key := value], key) == Some(value)
    ensures other != key ==> Get(items[key := value], other) == Get(items, other)
  {
  }

  class Storage {
    var items: map<string, string>

    constructor (initial: map<string, string>)
      ensures items == initial
    {
      items := initial;
    }

    /** `localStorage.getItem(key)`: the stored value, or `null` when the key is absent. */
    method GetItem(key: string) returns (r: Option<string>)
      ensures r == Get(items, key)
    {
      if key in items {
        r := Some(items[key]);
      } else {
        r := None;
      }
    }

    /** `localStorage.setItem(key, value)`: overwrites `key` and leaves every other key alone. */
    method SetItem(key: string, value: string)
      modifies this
      ensures items == old(items)[key := value]
    {
      items := items[key := value];
    }
  }
}
