/** The browser's local storage behind `StorageUtil`, seen only through what the two
    components do with it: a map from storage key to the stored sequence of
    submissions. JSON encoding and decoding are taken to round-trip. */
module Storage {
  import opened Records

  class Store {
    var slots: map<string, seq<Submission>>

    constructor ()
      ensures slots == map[]
    {
      slots := map[];
    }

    /** `StorageUtil.getItem(key) || []`: an absent key reads as the empty sequence. */
    function Get(key: string): seq<Submission>
      reads this
    {
      if key in slots then slots[key] else []
    }

    /** `StorageUtil.setItem`: the write either succeeds and replaces the value under
        `key`, or fails (quota, privacy mode) and leaves storage as it was. Which one
        happens is not under the program's control. */
    method SetItem(key: string, data: seq<Submission>) returns (ok: bool)
      modifies this
      ensures ok ==> slots == old(slots)[key := data]
      ensures !ok ==> slots == old(slots)
    {
      ok := *;
      if ok {
        slots := slots[key := data];
      }
    }

    /** `StorageUtil.clear`: removes the key; later reads see the empty sequence. */
    method Clear(key: string)
      modifies this
      ensures slots == old(slots) - {key}
      ensures Get(key) == []
    {
      slots := slots - {key};
    }
  }
}
