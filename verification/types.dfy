/** Shared vocabulary of the wallet extension model: wallet records, the
    persistent string store, the messages exchanged between extension
    contexts, and the effects a handler asks its environment to perform.

    Every handler of the model is a pure function from a state and an input
    to a new state plus a list of effects; the browser APIs (storage,
    runtime messaging, tab creation, navigation) appear only as `Effect`
    values, never as calls. */
module Types {

  datatype Option<+T> = None | Some(value: T)

  /** JavaScript truthiness of an optional string: `null`, `undefined` and
      the empty string all count as missing. */
  predicate Truthy(s: Option<string>) {
    s.Some? && s.value != ""
  }

  /** A wallet record. Only `address` is interpreted: it is the identity key
      by which wallets are found, deduplicated and removed. `publicKey` is
      read by the connection responder. `details` stands for every field the
      core never looks at (label, cached balance, key material), so that two
      records with one address can still differ. */
  datatype Wallet = Wallet(address: string, publicKey: Option<string>, details: string)

  /** The extension's persistent key/value store, as seen in one atomic step. */
  type Store = map<string, string>

  const WalletsKey := "wallets"
  const ActiveWalletIdKey := "activeWalletId"
  const LockedKey := "isWalletLocked"
  const PasswordHashKey := "walletPasswordHash"

  function Get(store: Store, key: string): (r: Option<string>)
    ensures r.Some? <==> key in store
    ensures r.Some? ==> r.value == store[key]
  {
    if key in store then Some(store[key]) else None
  }

  /** The payload of a SYNC_STATE message: a partial patch whose absent
      fields are `None`. */
  datatype Patch = Patch(wallets: Option<seq<Wallet>>, activeWallet: Option<Wallet>, isLocked: Option<bool>)

  /** One entry of a storage change notification (carried, never read). */
  datatype StorageChange = StorageChange(oldValue: Option<string>, newValue: Option<string>)

  type Changes = map<string, StorageChange>

  /** A message tag the extension does not know. */
  type UnknownTag = t: string | t != "SYNC_STATE" && t != "STORAGE_CHANGED" && t != "OPEN_EXPANDED"
    witness "PING"

  /** Messages dispatched on their `type` tag. `Other` is any message whose
      tag is none of the three the extension knows. */
  datatype Message =
    | SyncState(data: Patch)
    | StorageChanged(changes: Changes)
    | OpenExpanded
    | Other(kind: UnknownTag)

  /** What a handler asks the browser to do, in order. */
  datatype Effect =
    | StoreSet(key: string, value: string)
    | StoreRemove(key: string)
    | Send(msg: Message)
    | Navigate(url: string)
    | OpenTab(page: string)

  /** Whether some effect of the list writes or removes `key`. */
  predicate WritesKey(effects: seq<Effect>, key: string) {
    exists i :: 0 <= i < |effects| && (effects[i].StoreSet? || effects[i].StoreRemove?) && effects[i].key == key
  }

  function ApplyEffect(store: Store, e: Effect): Store {
    match e
    case StoreSet(k, v) => store[k := v]
    case StoreRemove(k) => store - {k}
    case _ => store
  }

  /** The store after performing the store effects of a list in order;
      messages, navigation and tabs leave it alone. */
  function ApplyEffects(store: Store, effects: seq<Effect>): (r: Store)
    ensures forall k :: !WritesKey(effects, k) ==> Get(r, k) == Get(store, k)
    decreases |effects|
  {
    if |effects| == 0 then store
    else
      var rest := ApplyEffects(ApplyEffect(store, effects[0]), effects[1..]);
      assert forall k :: !WritesKey(effects, k) ==> !WritesKey(effects[1..], k) by {
        forall k | WritesKey(effects[1..], k) ensures WritesKey(effects, k) {
          var i :| 0 <= i < |effects[1..]| && (effects[1..][i].StoreSet? || effects[1..][i].StoreRemove?) && effects[1..][i].key == k;
          assert effects[i + 1] == effects[1..][i];
        }
      }
      rest
  }

  lemma ApplyTwo(store: Store, e1: Effect, e2: Effect)
    ensures ApplyEffects(store, [e1, e2]) == ApplyEffect(ApplyEffect(store, e1), e2)
  {
    var s1 := ApplyEffect(store, e1);
    assert [e1, e2][1..] == [e2];
    assert [e2][1..] == [];
    assert ApplyEffects(store, [e1, e2]) == ApplyEffects(s1, [e2]);
    assert ApplyEffects(s1, [e2]) == ApplyEffects(ApplyEffect(s1, e2), []);
  }

  lemma ApplyThree(store: Store, e1: Effect, e2: Effect, e3: Effect)
    ensures ApplyEffects(store, [e1, e2, e3]) == ApplyEffect(ApplyEffect(ApplyEffect(store, e1), e2), e3)
  {
    assert [e1, e2, e3][1..] == [e2, e3];
    ApplyTwo(ApplyEffect(store, e1), e2, e3);
  }

  /** JSON.stringify and JSON.parse restricted to wallet lists. `parse`
      yields `None` where the source's JSON.parse throws. */
  datatype Codec = Codec(stringify: seq<Wallet> -> string, parse: string -> Option<seq<Wallet>>)

  /** What the model needs of the JSON codec: parsing what was written
      gives the list back, and a written list is never the empty string
      (JSON.stringify of an array is at least "[]"). */
  ghost predicate Faithful(c: Codec) {
    forall ws :: c.parse(c.stringify(ws)) == Some(ws) && c.stringify(ws) != ""
  }
}
