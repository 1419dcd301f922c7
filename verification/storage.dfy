/** Persistence of the form between page loads: one key of the browser's
    key/value store holds the serialized snapshot. Every failure of the store
    or of the serializer is swallowed. */
module Storage {
  import opened Optional
  import opened ApiTypes

  const StorageKey := "proposal_form_data"

  /** The browser store, from keys to string values. */
  type Store = map<string, string>

  /** The serializer (`JSON.stringify`) and the parser (`JSON.parse`), the
      latter yielding `None` when it throws or produces no object. */
  datatype Codec = Codec(encode: PartialRequest -> string, decode: string -> Option<PartialRequest>)

  /** The codec gives back what it wrote, and what it writes is a non-empty string. */
  predicate Faithful(codec: Codec, snapshot: PartialRequest) {
    codec.encode(snapshot) != "" && codec.decode(codec.encode(snapshot)) == Some(snapshot)
  }

  /** `saveFormData`; `fails` is a store or serializer exception, which leaves
      the store as it was. */
  function Save(store: Store, codec: Codec, snapshot: PartialRequest, fails: bool): (after: Store)
    ensures !fails ==> StorageKey in after && after[StorageKey] == codec.encode(snapshot)
    ensures fails ==> after == store
    ensures after.Keys == store.Keys + (if fails then {} else {StorageKey})
    ensures forall k | k in store && k != StorageKey :: after[k] == store[k]
  {
    if fails then store else store[StorageKey := codec.encode(snapshot)]
  }

  /** `loadFormData`: nothing when the key is missing or empty, when the
      parser rejects the text, or when reading fails. */
  function Load(store: Store, codec: Codec, fails: bool): (snapshot: Option<PartialRequest>)
    ensures snapshot.Some? ==> !fails && StorageKey in store && store[StorageKey] != ""
    ensures snapshot.Some? ==> codec.decode(store[StorageKey]) == snapshot
    ensures !fails && StorageKey in store && store[StorageKey] != "" ==> snapshot == codec.decode(store[StorageKey])
  {
    if fails || StorageKey !in store || store[StorageKey] == "" then None
    else codec.decode(store[StorageKey])
  }

  /** `clearFormData`. */
  function Clear(store: Store, fails: bool): (after: Store)
    ensures !fails ==> StorageKey !in after
    ensures after.Keys == store.Keys - (if fails then {} else {StorageKey})
    ensures forall k | k in after :: after[k] == store[k]
  {
    if fails then store else store - {StorageKey}
  }

  /** A snapshot saved successfully is the one loaded next. */
  lemma LoadAfterSave(store: Store, codec: Codec, snapshot: PartialRequest)
    requires Faithful(codec, snapshot)
    ensures Load(Save(store, codec, snapshot, false), codec, false) == Some(snapshot)
  {
  }

  /** After a successful clear nothing is loaded, whatever the codec. */
  lemma LoadAfterClear(store: Store, codec: Codec, readFails: bool)
    ensures Load(Clear(store, false), codec, readFails) == None
  {
  }

  /** A later save overwrites an earlier one. */
  lemma SaveOverwrites(store: Store, codec: Codec, first: PartialRequest, second: PartialRequest)
    ensures Save(Save(store, codec, first, false), codec, second, false) == Save(store, codec, second, false)
  {
  }

  /** A failed save keeps what an earlier save stored. */
  lemma FailedSaveKeepsPrevious(store: Store, codec: Codec, first: PartialRequest, second: PartialRequest)
    requires Faithful(codec, first)
    ensures Load(Save(Save(store, codec, first, false), codec, second, true), codec, false) == Some(first)
  {
    LoadAfterSave(store, codec, first);
  }

  /** Loading depends on the form's key alone. */
  lemma LoadIgnoresOtherKeys(store: Store, codec: Codec, key: string, value: string, fails: bool)
    requires key != StorageKey
    ensures Load(store[key := value], codec, fails) == Load(store, codec, fails)
  {
  }

  /** Clearing twice is clearing once. */
  lemma ClearIdempotent(store: Store)
    ensures Clear(Clear(store, false), false) == Clear(store, false)
  {
  }
}
