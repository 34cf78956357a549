/** The local-storage persistence middleware of
    `src/hooks/usePersistentStore.ts`, over records modelled as maps from
    keys to values. The JSON codec and the storage quota are parameters; so
    is a storage read that throws. */
module Persist {
  import opened Wrappers

  /** What `localStorage.getItem(key)` gave: a value, null, or an exception. */
  datatype StoredItem = ReadThrew | Item(value: Option<string>)

  /** Local storage as a map from keys to stored text. */
  type Storage = map<string, string>

  /** Reading a key of storage that does not throw. */
  function Read(storage: Storage, key: string): (item: StoredItem)
    ensures item.Item?
    ensures item.value.Some? <==> key in storage
    ensures key in storage ==> item.value.value == storage[key]
  {
    if key in storage then Item(Some(storage[key])) else Item(None)
  }

  /** The record the store starts from: every key of the defaults, overlaid
      with every key of the stored record when the stored text is non-empty
      and parses; the defaults alone when the read throws, the key is
      missing, the text is empty or the parse throws. */
  function Load<K, V>(defaults: map<K, V>, item: StoredItem, parse: string -> Option<map<K, V>>): (loaded: map<K, V>)
    ensures defaults.Keys <= loaded.Keys
    ensures (item.Item? && item.value.Some? && item.value.value != "" && parse(item.value.value).Some?) ==>
      var stored := parse(item.value.value).value;
      && loaded.Keys == defaults.Keys + stored.Keys
      && (forall k :: k in stored ==> loaded[k] == stored[k])
      && (forall k :: k in defaults && k !in stored ==> loaded[k] == defaults[k])
    ensures !(item.Item? && item.value.Some? && item.value.value != "" && parse(item.value.value).Some?) ==>
      loaded == defaults
  {
    match item
    case ReadThrew => defaults
    case Item(None) => defaults
    case Item(Some(text)) =>
      if text == "" then defaults
      else match parse(text)
        case None => defaults
        case Some(stored) => defaults + stored
  }

  /** `setItem(key, text)`: storage holds the text afterwards when it fits the
      quota; otherwise the exception is swallowed and storage is unchanged. */
  function Save(storage: Storage, key: string, text: string, fits: string -> bool): (after: Storage)
    ensures fits(text) ==> key in after && after[key] == text
    ensures forall k :: k in storage && k != key ==> k in after && after[k] == storage[k]
    ensures forall k :: k in after && k != key ==> k in storage
    ensures !fits(text) ==> after == storage
  {
    if fits(text) then storage[key := text] else storage
  }

  /** A codec that reads back what it writes, at one record. */
  predicate ReadsBack<K, V(==)>(stringify: map<K, V> -> string, parse: string -> Option<map<K, V>>, record: map<K, V>)
  {
    stringify(record) != "" && parse(stringify(record)) == Some(record)
  }

  /** Loading after a successful save of a record that covers every default
      key gives back exactly that record. */
  lemma LoadAfterSave<K, V>(storage: Storage, key: string, record: map<K, V>, defaults: map<K, V>,
                            stringify: map<K, V> -> string, parse: string -> Option<map<K, V>>,
                            fits: string -> bool)
    requires fits(stringify(record))
    requires ReadsBack(stringify, parse, record)
    requires defaults.Keys <= record.Keys
    ensures Load(defaults, Read(Save(storage, key, stringify(record), fits), key), parse) == record
  {
    var loaded := Load(defaults, Read(Save(storage, key, stringify(record), fits), key), parse);
    assert loaded.Keys == record.Keys;
    forall k | k in record
      ensures loaded[k] == record[k]
    {
    }
  }

  /** A save that does not fit leaves the previously saved record in place. */
  lemma FailedSaveKeepsEarlierRecord<K, V>(storage: Storage, key: string, earlier: map<K, V>, later: map<K, V>,
                                           defaults: map<K, V>, stringify: map<K, V> -> string,
                                           parse: string -> Option<map<K, V>>, fits: string -> bool)
    requires fits(stringify(earlier)) && !fits(stringify(later))
    requires ReadsBack(stringify, parse, earlier)
    requires defaults.Keys <= earlier.Keys
    ensures Load(defaults, Read(Save(Save(storage, key, stringify(earlier), fits), key, stringify(later), fits), key), parse)
            == earlier
  {
    LoadAfterSave(storage, key, earlier, defaults, stringify, parse, fits);
  }
}
