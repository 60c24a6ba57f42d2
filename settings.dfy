/** The key-value settings store that the environment resolver reads and
    heals. Only the part of the `DefaultSettings` protocol the resolver uses is
    modelled: reading a string, writing a string, and flushing to disk. */
module Settings {
  import opened Wrappers

  /** A store of string settings, updated in place. */
  class DefaultSettings {
    var values: map<string, string>

    constructor (initial: map<string, string>)
      ensures values == initial
    {
      values := initial;
    }

    /** `string(forKey:)`: the string stored at `key`, or nothing when the
        key has no value. Reading never changes the store. */
    method StringForKey(key: string) returns (r: Option<string>)
      ensures r.Some? <==> key in values
      ensures r.Some? ==> r.value == values[key]
    {
      r := if key in values then Some(values[key]) else None;
    }

    /** `set(_:forKey:)`: afterwards `key` holds `value`; every other key
        keeps what it held. */
    method Set(value: string, key: string)
      modifies this
      ensures values == old(values)[key := value]
      ensures key in values && values[key] == value
      ensures values - {key} == old(values) - {key}
    {
      values := values[key := value];
    }

    /** `synchronize()`: flushes to persistent storage, which leaves the
        abstract contents as they were. */
    method Synchronize()
      modifies this
      ensures values == old(values)
    {
    }
  }
}
