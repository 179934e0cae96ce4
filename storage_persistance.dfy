/**
  The client-prefixed persistence layer of the OpenID Connect client
  (`StoragePersistanceService`): a fixed set of keys, each stored in an
  abstract key-value backing store under `<clientId>_<key>`.

  The backing store is a `map` from storage keys to JSON-like values; an entry
  that is not in the map reads as `null`, as the storage contract promises.
*/
module StoragePersistance {
  import opened Wrappers

  /** The keys the client persists. */
  datatype StorageKey =
    | AuthnResult
    | AuthzData
    | AccessTokenExpiresAt
    | AuthWellKnownEndPoints
    | UserData
    | AuthNonce
    | CodeVerifier
    | AuthStateControl
    | SessionState
    | StorageSilentRenewRunning
  {
    /** The key's name as written into the backing store. */
    function Name(): string {
      match this
      case AuthnResult => "authnResult"
      case AuthzData => "authzData"
      case AccessTokenExpiresAt => "access_token_expires_at"
      case AuthWellKnownEndPoints => "authWellKnownEndPoints"
      case UserData => "userData"
      case AuthNonce => "authNonce"
      case CodeVerifier => "codeVerifier"
      case AuthStateControl => "authStateControl"
      case SessionState => "session_state"
      case StorageSilentRenewRunning => "storageSilentRenewRunning"
    }
  }

  /** A stored JSON value. */
  datatype Value =
    | Null
    | Text(text: string)
    | Number(number: int)
    | Bool(flag: bool)
    | Object(fields: map<string, Value>)

  /** `read` of the backing store: a missing entry is null. */
  function StoredAt(store: map<string, Value>, storageKey: string): Value {
    if storageKey in store then store[storageKey] else Null
  }

  /**
    JavaScript `v?.name` for a property name that only objects carry as an own
    property (not a string property such as `length`, nor one inherited from
    `Object.prototype`), such as `id_token` and `refresh_token`: the property of
    an object value, or nothing.
  */
  function OptionalField(v: Value, name: string): (r: Option<Value>)
    ensures r.Some? <==> v.Object? && name in v.fields
    ensures r.Some? ==> r.value == v.fields[name]
  {
    if v.Object? && name in v.fields then Some(v.fields[name]) else None
  }

  /** The prefix in front of every key: the configured client id, or "" when there is none. */
  function ClientPrefix(clientId: Option<string>): string {
    clientId.GetOr("")
  }

  /** The backing-store key for a storage key: `<clientId>_<key>`. */
  function CreateKeyWithPrefix(clientId: Option<string>, key: StorageKey): (storageKey: string)
    ensures IsPrefix(ClientPrefix(clientId) + "_", storageKey)
    ensures storageKey[|ClientPrefix(clientId)| + 1..] == key.Name()
  {
    ClientPrefix(clientId) + "_" + key.Name()
  }

  /** Without a client id the key is the bare name after an underscore. */
  lemma NoClientIdGivesUnderscorePrefix(key: StorageKey)
    ensures CreateKeyWithPrefix(None, key) == "_" + key.Name()
    ensures CreateKeyWithPrefix(Some(""), key) == "_" + key.Name()
  {
  }

  /** Distinct storage keys have distinct names. */
  lemma NamesDistinct(k1: StorageKey, k2: StorageKey)
    requires k1 != k2
    ensures k1.Name() != k2.Name()
  {
  }

  /** For a fixed client id, distinct storage keys map to distinct backing-store keys. */
  lemma CreateKeyWithPrefixInjective(clientId: Option<string>, k1: StorageKey, k2: StorageKey)
    requires k1 != k2
    ensures CreateKeyWithPrefix(clientId, k1) != CreateKeyWithPrefix(clientId, k2)
  {
  }

  /** Writing a key and reading it back gives the written value; every other storage key reads as before. */
  lemma WriteThenRead(store: map<string, Value>, clientId: Option<string>, key: StorageKey, value: Value, other: StorageKey)
    ensures StoredAt(store[CreateKeyWithPrefix(clientId, key) := value], CreateKeyWithPrefix(clientId, key)) == value
    ensures other != key ==>
      StoredAt(store[CreateKeyWithPrefix(clientId, key) := value], CreateKeyWithPrefix(clientId, other))
        == StoredAt(store, CreateKeyWithPrefix(clientId, other))
  {
  }

  // ---------------------------------------------------------------------------
  // The two resets, as functions of the backing store
  // ---------------------------------------------------------------------------

  /** The keys `resetStorageFlowData` clears. */
  const FlowDataKeys: set<StorageKey> := {SessionState, StorageSilentRenewRunning, CodeVerifier, UserData}

  /** The keys `resetAuthStateInStorage` blanks. */
  const AuthStateKeys: set<StorageKey> := {AuthzData, AuthnResult}

  /** The store after writing null to session_state, storageSilentRenewRunning, codeVerifier and userData, in that order. */
  function FlowDataReset(store: map<string, Value>, clientId: Option<string>): map<string, Value> {
    store[CreateKeyWithPrefix(clientId, SessionState) := Null]
         [CreateKeyWithPrefix(clientId, StorageSilentRenewRunning) := Null]
         [CreateKeyWithPrefix(clientId, CodeVerifier) := Null]
         [CreateKeyWithPrefix(clientId, UserData) := Null]
  }

  /** The store after writing '' to authzData and then authnResult. */
  function AuthStateReset(store: map<string, Value>, clientId: Option<string>): map<string, Value> {
    store[CreateKeyWithPrefix(clientId, AuthzData) := Text("")]
         [CreateKeyWithPrefix(clientId, AuthnResult) := Text("")]
  }

  /** The backing-store keys of a set of storage keys. */
  function PrefixedKeys(clientId: Option<string>, keys: set<StorageKey>): set<string> {
    set k | k in keys :: CreateKeyWithPrefix(clientId, k)
  }

  /**
    After `resetStorageFlowData` exactly the four flow keys read as null: every
    other storage key, and every backing-store entry outside the four, is unchanged.
  */
  lemma FlowDataResetEffect(store: map<string, Value>, clientId: Option<string>, key: StorageKey)
    ensures StoredAt(FlowDataReset(store, clientId), CreateKeyWithPrefix(clientId, key))
         == if key in FlowDataKeys then Null else StoredAt(store, CreateKeyWithPrefix(clientId, key))
    ensures FlowDataReset(store, clientId).Keys == store.Keys + PrefixedKeys(clientId, FlowDataKeys)
    ensures forall sk :: sk in store && sk !in PrefixedKeys(clientId, FlowDataKeys) ==> FlowDataReset(store, clientId)[sk] == store[sk]
  {
  }

  /** `resetStorageFlowData` is idempotent. */
  lemma FlowDataResetIdempotent(store: map<string, Value>, clientId: Option<string>)
    ensures FlowDataReset(FlowDataReset(store, clientId), clientId) == FlowDataReset(store, clientId)
  {
  }

  /** After `resetAuthStateInStorage` authzData and authnResult read as '' and every other entry is unchanged. */
  lemma AuthStateResetEffect(store: map<string, Value>, clientId: Option<string>, key: StorageKey)
    ensures StoredAt(AuthStateReset(store, clientId), CreateKeyWithPrefix(clientId, key))
         == if key in AuthStateKeys then Text("") else StoredAt(store, CreateKeyWithPrefix(clientId, key))
    ensures AuthStateReset(store, clientId).Keys == store.Keys + PrefixedKeys(clientId, AuthStateKeys)
    ensures forall sk :: sk in store && sk !in PrefixedKeys(clientId, AuthStateKeys) ==> AuthStateReset(store, clientId)[sk] == store[sk]
  {
  }

  /** The two resets touch disjoint keys, so they commute. */
  lemma ResetsCommute(store: map<string, Value>, clientId: Option<string>)
    ensures FlowDataReset(AuthStateReset(store, clientId), clientId) == AuthStateReset(FlowDataReset(store, clientId), clientId)
  {
  }

  /** After `resetAuthStateInStorage` there is neither an id_token nor a refresh_token, and the access token is ''. */
  lemma AuthStateResetClearsTokens(store: map<string, Value>, clientId: Option<string>)
    ensures OptionalField(StoredAt(AuthStateReset(store, clientId), CreateKeyWithPrefix(clientId, AuthnResult)), "id_token").None?
    ensures OptionalField(StoredAt(AuthStateReset(store, clientId), CreateKeyWithPrefix(clientId, AuthnResult)), "refresh_token").None?
    ensures StoredAt(AuthStateReset(store, clientId), CreateKeyWithPrefix(clientId, AuthzData)) == Text("")
  {
  }

  // ---------------------------------------------------------------------------
  // The service
  // ---------------------------------------------------------------------------

  class StoragePersistanceService {
    /** The configured client id (absent when no configuration is loaded). */
    const clientId: Option<string>
    /** The backing store. */
    var store: map<string, Value>

    constructor(clientId: Option<string>, backing: map<string, Value>)
      ensures this.clientId == clientId && store == backing
    {
      this.clientId := clientId;
      store := backing;
    }

    /** Reads the prefixed entry of `key`; null when there is none. */
    function Read(key: StorageKey): (v: Value)
      reads this
      ensures CreateKeyWithPrefix(clientId, key) in store ==> v == store[CreateKeyWithPrefix(clientId, key)]
      ensures CreateKeyWithPrefix(clientId, key) !in store ==> v == Null
    {
      StoredAt(store, CreateKeyWithPrefix(clientId, key))
    }

    /** Writes the prefixed entry of `key`; every other storage key keeps its value. */
    method Write(key: StorageKey, value: Value)
      modifies this
      ensures store == old(store)[CreateKeyWithPrefix(clientId, key) := value]
      ensures Read(key) == value
      ensures forall other :: other != key ==> Read(other) == old(Read(other))
    {
      store := store[CreateKeyWithPrefix(clientId, key) := value];
      forall other | other != key
        ensures Read(other) == old(Read(other))
      {
        WriteThenRead(old(store), clientId, key, value, other);
      }
    }

    /** Writes null to session_state, storageSilentRenewRunning, codeVerifier and userData. */
    method ResetStorageFlowData()
      modifies this
      ensures store == FlowDataReset(old(store), clientId)
      ensures forall k :: Read(k) == if k in FlowDataKeys then Null else old(Read(k))
    {
      Write(SessionState, Null);
      Write(StorageSilentRenewRunning, Null);
      Write(CodeVerifier, Null);
      Write(UserData, Null);
    }

    /** Writes '' to authzData and authnResult. */
    method ResetAuthStateInStorage()
      modifies this
      ensures store == AuthStateReset(old(store), clientId)
      ensures forall k :: Read(k) == if k in AuthStateKeys then Text("") else old(Read(k))
      ensures GetIdToken().None? && GetRefreshToken().None? && GetAccessToken() == Text("")
    {
      Write(AuthzData, Text(""));
      Write(AuthnResult, Text(""));
    }

    /** The access token: exactly the value stored under authzData. */
    function GetAccessToken(): (token: Value)
      reads this
      ensures token == StoredAt(store, CreateKeyWithPrefix(clientId, AuthzData))
    {
      Read(AuthzData)
    }

    /** The id_token property of the stored authnResult, if it is an object that has one. */
    function GetIdToken(): (token: Option<Value>)
      reads this
      ensures token.Some? <==> Read(AuthnResult).Object? && "id_token" in Read(AuthnResult).fields
      ensures token.Some? ==> token.value == Read(AuthnResult).fields["id_token"]
    {
      OptionalField(Read(AuthnResult), "id_token")
    }

    /** The refresh_token property of the stored authnResult, if it is an object that has one. */
    function GetRefreshToken(): (token: Option<Value>)
      reads this
      ensures token.Some? <==> Read(AuthnResult).Object? && "refresh_token" in Read(AuthnResult).fields
      ensures token.Some? ==> token.value == Read(AuthnResult).fields["refresh_token"]
    {
      OptionalField(Read(AuthnResult), "refresh_token")
    }
  }
}
