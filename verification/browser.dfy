/** The parts of the browser the scripts read or write that the model treats
    as inputs (clock, randomness, address) or as plain state (storage). */
module Browser {

  /** What a handler observes of its environment when it runs: the page
      address (`window.location.href`), `Date.now()` in milliseconds, the
      base-36 digits `Math.random()` contributes to a new session id, and the
      ISO-8601 text `new Date().toISOString()` gives. */
  datatype Env = Env(pageUrl: string, nowMs: nat, randomDigits: string, isoTime: string)

  /** `localStorage` or `sessionStorage`: string keys to string values,
      surviving page loads as long as the object does. */
  class KeyValueStore {
    var entries: map<string, string>

    constructor (initial: map<string, string>)
      ensures entries == initial
    {
      entries := initial;
    }

    /** `setItem(key, value)`: the key now holds the value, nothing else moves. */
    method SetItem(key: string, value: string)
      modifies this`entries
      ensures entries == old(entries)[key := value]
      ensures forall k :: k in old(entries) && k != key ==> k in entries && entries[k] == old(entries)[k]
    {
      entries := entries[key := value];
    }
  }
}
