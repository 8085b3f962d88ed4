/// `request.session`: the per-user key/value store both apps keep their
/// tokens in. The views read it with `get` and write single keys in place.
module Web {
  import opened PyValues

  class Session {
    var entries: map<string, Json>

    constructor (initial: map<string, Json>)
      ensures entries == initial
    {
      entries := initial;
    }

    /** `request.session.get(key)`: None (JNull) for a key that was never set. */
    function Lookup(key: string): (v: Json)
      reads this
      ensures key in entries ==> v == entries[key]
      ensures key !in entries ==> v == JNull
    {
      Get(entries, key)
    }

    /** `request.session[key] = value` */
    method Put(key: string, value: Json)
      modifies this
      ensures entries == old(entries)[key := value]
    {
      entries := entries[key := value];
    }
  }
}
