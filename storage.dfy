/** `StorageUtils` of js/utils.js over the browser's `localStorage`. */
module StorageUtils {
  import opened Strings

  /** Every key the application writes starts with this prefix. */
  const AppPrefix: string := "mindscribe_"

  /** What `clearAll` leaves behind: the entries whose keys are not the application's. */
  function WithoutAppKeys(items: map<string, string>): (r: map<string, string>)
    ensures forall k :: k in r <==> k in items && !StartsWith(k, AppPrefix)
    ensures forall k :: k in r ==> r[k] == items[k]
  {
    map k | k in items && !StartsWith(k, AppPrefix) :: items[k]
  }

  /** Clearing twice clears nothing more. */
  lemma ClearIdempotent(items: map<string, string>)
    ensures WithoutAppKeys(WithoutAppKeys(items)) == WithoutAppKeys(items)
  {
  }

  /** `localStorage`: each key holds the JSON text saved under it. */
  class Storage {
    var items: map<string, string>

    constructor(initial: map<string, string>)
      ensures items == initial
    {
      items := initial;
    }

    /**
     * `load(key, defaultValue)`: the stored text, or the default when the key is missing
     * or holds the empty string (which `data ? … : defaultValue` treats as absent).
     */
    function Load(key: string, defaultValue: string): (r: string)
      reads this
      ensures key in items && items[key] != "" ==> r == items[key]
      ensures key !in items || items[key] == "" ==> r == defaultValue
    {
      if key in items && items[key] != "" then items[key] else defaultValue
    }

    /**
     * `save(key, data)` where `data` is the JSON text; `accepted` is false when `setItem`
     * throws (a full quota), in which case nothing is stored and the result is false.
     */
    method Save(key: string, data: string, accepted: bool) returns (ok: bool)
      modifies this
      ensures ok == accepted
      ensures items == if accepted then old(items)[key := data] else old(items)
      ensures accepted && data != "" ==> forall d :: Load(key, d) == data
    {
      if accepted {
        items := items[key := data];
      }
      ok := accepted;
    }

    /** `remove(key)`: the key is gone and every other entry is as it was. */
    method Remove(key: string) returns (ok: bool)
      modifies this
      ensures ok
      ensures items == old(items) - {key}
      ensures forall d :: Load(key, d) == d
    {
      items := items - {key};
      ok := true;
    }

    /** `clearAll()`: removes the application's keys one at a time and keeps everything else. */
    method ClearAll() returns (ok: bool)
      modifies this
      ensures ok
      ensures items == WithoutAppKeys(old(items))
    {
      var keys := items.Keys;
      ghost var original := items;
      while keys != {}
        invariant keys <= original.Keys
        invariant forall k :: k in items <==> k in original && (k in keys || !StartsWith(k, AppPrefix))
        invariant forall k :: k in items ==> items[k] == original[k]
        decreases keys
      {
        var k :| k in keys;
        if StartsWith(k, AppPrefix) {
          items := items - {k};
        }
        keys := keys - {k};
      }
      assert items == WithoutAppKeys(original);
      ok := true;
    }
  }
}
