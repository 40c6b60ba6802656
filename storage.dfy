/**
 * The persistent key/value store the override choices are mirrored to. Its
 * file format is not part of this model: it is a map from keys to lists of
 * selection records, with an `enabled` option and an initialisation flag.
 */
module Storage {
  import opened Common
  import opened Interfaces

  class FileStorage {
    const enabled: bool
    var initialized: bool
    var items: map<string, seq<Selection>>

    constructor (enabled: bool, initialized: bool, items: map<string, seq<Selection>>)
      ensures this.enabled == enabled && this.initialized == initialized && this.items == items
    {
      this.enabled := enabled;
      this.initialized := initialized;
      this.items := items;
    }

    predicate IsInitialized()
      reads this
    {
      initialized
    }

    predicate IsEmpty()
      reads this
    {
      items == map[]
    }

    function GetItem(key: string): (r: Option<seq<Selection>>)
      reads this
      ensures r.Some? <==> key in items
      ensures r.Some? ==> r.value == items[key]
    {
      if key in items then Some(items[key]) else None
    }

    method SetItem(key: string, value: seq<Selection>)
      modifies this`items
      ensures items == old(items)[key := value]
    {
      items := items[key := value];
    }
  }
}
