/**
 * The credential store of the application (`ApiKeyProvider`): the two API
 * keys start at built-in defaults, a load step overrides each with a
 * non-empty saved value, and each setter changes its key and writes it to
 * the browser's local storage, which is modelled as a map from item names
 * to values.
 */
module ApiKeyContext {
  import opened Wrappers

  /** The local-storage item names of the two keys. */
  const GeminiStorageKey: string := "geminiApiKey"
  const OmdbStorageKey: string := "omdbApiKey"

  /**
   * Stand-ins for the built-in default keys. Only their being non-empty
   * matters to the behaviour modelled here.
   */
  const DefaultGeminiApiKey: string := "default-gemini-key"
  const DefaultOmdbApiKey: string := "default-omdb-key"

  /** `localStorage.getItem(name)`: the stored value, or `null` when there is none. */
  function GetItem(storage: map<string, string>, name: string): (item: Option<string>)
    ensures item.Some? <==> name in storage
    ensures item.Some? ==> item.value == storage[name]
  {
    if name in storage then Some(storage[name]) else None
  }

  /**
   * The key after the load step: a saved value replaces the current key only
   * when it is truthy, that is, present and non-empty.
   */
  function LoadedKey(saved: Option<string>, current: string): (key: string)
    ensures key == current || (saved.Some? && key == saved.value)
    ensures key == current <== saved.None? || saved.value == []
    ensures key == saved.value <== saved.Some? && saved.value != []
  {
    if saved.Some? && saved.value != [] then saved.value else current
  }

  /** Reading an item back after writing it gives the value written; the other items read as before. */
  lemma GetItemAfterSetItem(storage: map<string, string>, name: string, value: string)
    ensures GetItem(storage[name := value], name) == Some(value)
    ensures forall other :: other != name ==> GetItem(storage[name := value], other) == GetItem(storage, other)
  {
  }

  /** A truthy saved value decides the key whatever it was before; otherwise the key is kept. */
  lemma LoadedKeyIgnoresCurrent(saved: Option<string>, current: string, other: string)
    ensures saved.Some? && saved.value != [] ==> LoadedKey(saved, current) == LoadedKey(saved, other)
    ensures !(saved.Some? && saved.value != []) ==> LoadedKey(saved, current) == current
  {
  }

  /** Loading twice from the same storage is the same as loading once. */
  lemma LoadedKeyIdempotent(saved: Option<string>, current: string)
    ensures LoadedKey(saved, LoadedKey(saved, current)) == LoadedKey(saved, current)
  {
  }

  /** Loading never empties a key: a key that is set stays set. */
  lemma LoadedKeyStaysSet(saved: Option<string>, current: string)
    ensures current != [] ==> LoadedKey(saved, current) != []
  {
  }

  /** A value written with `setItem` and then loaded becomes the key when it is non-empty, else the key is kept. */
  lemma LoadedKeyAfterSetItem(storage: map<string, string>, name: string, value: string, current: string)
    ensures LoadedKey(GetItem(storage[name := value], name), current) == if value != [] then value else current
  {
    GetItemAfterSetItem(storage, name, value);
  }

  class ApiKeyStore {
    var geminiApiKey: string
    var omdbApiKey: string
    /** The browser's local storage, as seen by this store. */
    var storage: map<string, string>

    /** The initial state: both keys at their defaults, storage as found. */
    constructor (storage0: map<string, string>)
      ensures geminiApiKey == DefaultGeminiApiKey && omdbApiKey == DefaultOmdbApiKey
      ensures storage == storage0
      ensures IsKeysSet()
    {
      geminiApiKey := DefaultGeminiApiKey;
      omdbApiKey := DefaultOmdbApiKey;
      storage := storage0;
    }

    /** The mount-time load: each key takes its saved value when that value is non-empty. */
    method LoadFromStorage()
      modifies this
      ensures geminiApiKey == LoadedKey(GetItem(storage, GeminiStorageKey), old(geminiApiKey))
      ensures omdbApiKey == LoadedKey(GetItem(storage, OmdbStorageKey), old(omdbApiKey))
      ensures storage == old(storage)
      ensures old(IsKeysSet()) ==> IsKeysSet()
    {
      var savedGeminiKey := GetItem(storage, GeminiStorageKey);
      var savedOmdbKey := GetItem(storage, OmdbStorageKey);
      if savedGeminiKey.Some? && savedGeminiKey.value != [] {
        geminiApiKey := savedGeminiKey.value;
      }
      if savedOmdbKey.Some? && savedOmdbKey.value != [] {
        omdbApiKey := savedOmdbKey.value;
      }
    }

    /** `setGeminiApiKey(key)`: no validation; the key is kept and persisted, the other key and its item are untouched. */
    method SetGeminiApiKey(key: string)
      modifies this
      ensures geminiApiKey == key && storage == old(storage)[GeminiStorageKey := key]
      ensures omdbApiKey == old(omdbApiKey)
      ensures OmdbStorageKey in old(storage) <==> OmdbStorageKey in storage
      ensures OmdbStorageKey in storage ==> storage[OmdbStorageKey] == old(storage)[OmdbStorageKey]
    {
      geminiApiKey := key;
      storage := storage[GeminiStorageKey := key];
    }

    /** `setOmdbApiKey(key)`: no validation; the key is kept and persisted, the other key and its item are untouched. */
    method SetOmdbApiKey(key: string)
      modifies this
      ensures omdbApiKey == key && storage == old(storage)[OmdbStorageKey := key]
      ensures geminiApiKey == old(geminiApiKey)
      ensures GeminiStorageKey in old(storage) <==> GeminiStorageKey in storage
      ensures GeminiStorageKey in storage ==> storage[GeminiStorageKey] == old(storage)[GeminiStorageKey]
    {
      omdbApiKey := key;
      storage := storage[OmdbStorageKey := key];
    }

    /** `isKeysSet`: both keys are truthy. */
    function IsKeysSet(): (keysSet: bool)
      reads this
      ensures keysSet <==> geminiApiKey != [] && omdbApiKey != []
    {
      geminiApiKey != [] && omdbApiKey != []
    }
  }

  /**
   * A session that sets both keys, then a new session that loads from the
   * storage the first left behind. The keys are set exactly when both values
   * are non-empty; after the reload each key is the value set when that is
   * non-empty and the default otherwise, so the reloaded keys are always set.
   */
  method SetThenReload(storage0: map<string, string>, gemini: string, omdb: string)
    returns (keysSet: bool, reloadedGemini: string, reloadedOmdb: string, reloadedSet: bool)
    ensures keysSet <==> gemini != [] && omdb != []
    ensures reloadedGemini == (if gemini != [] then gemini else DefaultGeminiApiKey)
    ensures reloadedOmdb == (if omdb != [] then omdb else DefaultOmdbApiKey)
    ensures reloadedSet
  {
    var first := new ApiKeyStore(storage0);
    first.LoadFromStorage();
    first.SetGeminiApiKey(gemini);
    first.SetOmdbApiKey(omdb);
    keysSet := first.IsKeysSet();

    var second := new ApiKeyStore(first.storage);
    second.LoadFromStorage();
    reloadedGemini, reloadedOmdb := second.geminiApiKey, second.omdbApiKey;
    reloadedSet := second.IsKeysSet();
  }
}
