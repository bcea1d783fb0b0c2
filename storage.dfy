/**
 * The browser's `localStorage`: one durable map from string keys to string values,
 * shared by every provider, and the JSON encoding the providers store in it.
 */
module Storage {
  import opened Wrappers

  class LocalStorage {
    var items: map<string, string>

    constructor (initial: map<string, string>)
      ensures items == initial
    {
      items := initial;
    }

    /** `getItem(key)`: the stored string, or `null` when the key is absent. */
    function GetItem(key: string): (r: Option<string>)
      reads this
      ensures r.Some? <==> key in items
      ensures r.Some? ==> r.value == items[key]
    {
      if key in items then Some(items[key]) else None
    }

    /** `setItem(key, value)`: overwrites the key and touches no other. */
    method SetItem(key: string, value: string)
      modifies this
      ensures items == old(items)[key := value]
    {
      items := items[key := value];
    }

    /** `removeItem(key)`: deletes the key, if present, and touches no other. */
    method RemoveItem(key: string)
      modifies this
      ensures items == old(items) - {key}
    {
      items := items - {key};
    }
  }

  /**
   * `JSON.stringify` and `JSON.parse` for one value type. `decode` returns `None`
   * where `JSON.parse` throws.
   */
  datatype Codec<!T> = Codec(encode: T -> string, decode: string -> Option<T>)

  /** The text written for `x` is not empty and reads back as `x`. */
  ghost predicate RoundTrips<T>(codec: Codec<T>, x: T)
  {
    codec.encode(x) != "" && codec.decode(codec.encode(x)) == Some(x)
  }

  /** What JSON guarantees for a value type whose every value it can write: each one round-trips. */
  ghost predicate Lawful<T(!new)>(codec: Codec<T>)
  {
    forall x: T :: RoundTrips(codec, x)
  }

  /** What a provider finds under its key at startup. */
  datatype Restored<T> = NothingStored | Parsed(value: T) | Corrupt

  /**
   * The guard `if (stored) { try { JSON.parse(stored) } catch { ... } }`: an absent key
   * and the empty string (the one falsy string) are skipped; otherwise the text parses
   * or is corrupt.
   */
  function Restore<T>(stored: Option<string>, codec: Codec<T>): (r: Restored<T>)
    ensures r.NothingStored? <==> stored.None? || stored.value == ""
    ensures r.Parsed? ==> stored.Some? && codec.decode(stored.value) == Some(r.value)
    ensures r.Corrupt? <==> stored.Some? && stored.value != "" && codec.decode(stored.value).None?
  {
    if stored.None? || stored.value == "" then NothingStored
    else match codec.decode(stored.value)
      case Some(v) => Parsed(v)
      case None => Corrupt
  }

  /** A value the providers wrote is restored as that value. */
  lemma RestoreEncoded<T>(codec: Codec<T>, x: T)
    requires RoundTrips(codec, x)
    ensures Restore(Some(codec.encode(x)), codec) == Parsed(x)
  {
  }
}
