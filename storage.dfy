/** `localStorage`: the origin-wide string key-value store that keeps the
    `theme` and `language` preferences across page loads. */
module Storage {
  import opened Values

  class Store {
    var entries: map<string, string>

    constructor (entries: map<string, string>)
      ensures this.entries == entries
    {
      this.entries := entries;
    }

    /** `localStorage.getItem(key)`: the stored value, or `null`. */
    function GetItem(key: string): (r: Option<string>)
      reads this
      ensures r.Some? <==> key in entries
      ensures r.Some? ==> r.value == entries[key]
    {
      if key in entries then Some(entries[key]) else None
    }

    /** `localStorage.setItem(key, value)`: last write wins. */
    method SetItem(key: string, value: string)
      modifies this
      ensures entries == old(entries)[key := value]
      ensures GetItem(key) == Some(value)
    {
      entries := entries[key := value];
    }
  }
}
